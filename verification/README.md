# Verified models of the Composite kernel and its core libraries

Composite is a component-based operating system: a small kernel that manages memory types,
page tables, capability tables, end-points and time, with the policies above it in user-level
components. This project models six of its parts in Dafny and proves what their code relies
on over whole runs. Nothing here executes the C code; the models follow its branches, edge
cases and constants, and the proofs are about the models.

| part | files |
|---|---|
| Mutable protection domains: how many isolation boundaries a system can afford, decided by repeated minimum cuts of the component graph | `Wrappers.dfy`, `Sums.dfy`, `Heap.dfy`, `Cuts.dfy`, `MinCut.dfy`, `Ledger.dfy`, `Trade.dfy`, `Mpd.dfy`, `PolicyRuns.dfy` |
| Retyping of memory between untyped, user and kernel, with per-core reference counts and TLB quiescence | `Retype.dfy`, `RetypeRuns.dfy` |
| Temporal capabilities: budgets, delegation lists, and the list of active tcaps | `List.dfy`, `Delegation.dfy`, `Tcap.dfy` |
| The linker's dependency check and boot order | `Linker.dfy` |
| Capability tables over the radix trie, and the user-level allocators of capability identifiers and virtual ranges | `Modulo.dfy`, `Trie.dfy`, `Captbl.dfy`, `CapId.dfy`, `Vas.dfy` |
| The single-producer ring and the tree of receive end-points | `Ring.dfy`, `EndPoint.dfy`, `Notification.dfy` |

## The main results

* **Minimum cut** (`MinCuts.Domain.FindMinCut`). For every graph with non-negative weights the
  value and the member list left behind are a minimum over all proper, non-empty subsets of the
  domain. The proof goes through `Cuts.CutOfPhase`, the Stoer-Wagner argument, for each phase and
  through an induction over the merged groups, down to the array heap.
* **The ledger of the policy** (`Policies.Policy`). Edges, inter-domain edges and the running
  total agree after every operation; a merge lowers the total by the weight between the two
  domains, and a split along the saved cut raises it by exactly the amount of that cut.
* **Trading merges for splits** (`Policies.Policy.CustomizeOverhead`). Unless two lightest cuts of
  the same weight are in play, the third loop of `customize_overhead_to_limit` ends: every round
  before the last gains a domain, lowers the total, or leaves a heavier domain edge.
* **Retyping** (`Retype.RunInv` and the theorems after it). In every interleaving of single loads,
  stores and compare-and-swaps on any number of cores, a retype to untyped memory commits only
  when nothing maps, holds or is about to hold a page of the set.
* **Tcaps** (`Tcaps.TcapSystem`). A tcap is linked exactly when it has budget, delegation lists
  stay sorted and bounded, and no time is created by transfers between finite tcaps.
* **Linking** (`Linkers.Linker.Link`). The check accepts exactly the acyclic graphs, and the depth
  it leaves behind is what makes the recursive boot schedule end and be topological.
* **Capability table** (`Captbls.CapTable`). It is a map from identifiers to entries, in spite of
  cache lines, per-line sizes, activation maps and the trie below.
* **Ring** (`Rings.Linearizable`). Every run of one producer and any number of consumers is a run
  of a bounded first-in-first-out queue.
* **Notification tree** (`Notifications.Receivers`). Chains of receive end-points end at the root
  in fewer steps than the bound that the kernel asserts. The end-points are entries of a capability
  table, found and cleared through it.
* **Virtual ranges** (`Ranges.AddressSpace.Alloc`). In 32-bit arithmetic, which ranges come back with
  all their page tables installed, each once, and how every other call ends.

## Where the code does less than expected

Each of these but one comes with the exact condition under which the property holds, for all inputs; for
customizing the overhead the condition is sufficient.

* **TLBs at the commit of a retype.** The mandatory-flush check leaves out the last core when there
  is more than one. Every commit finds all TLBs clean if and only if there is a single core
  (`RetypeRuns.FlushedExactly`); the counterexample runs on any larger number of cores.
  `Retype.NoTlbAtAll` says which recorded flushes are enough in a given run, up to its commit.
* **An empty answer from the ring.** `ck_ring_trydequeue_spmc` also returns false when it loses its
  compare-and-swap. Such an answer always means that the queue was empty at some time during the
  call if and only if the ring has at most two slots or there is at most one consumer
  (`Rings.TruthfulExactly`).
* **Merging tcaps.** `tcap_delete` does not unlink. `Tcaps.TcapSystem.Merge` leaves the active list
  well-formed if and only if the removed tcap had a finite budget. `Tcaps.DeletedButLinked` is a run
  from boot to a deleted tcap that is first on the list.
* **Deactivating a receive end-point.** `arcv_deactivate` finds the capability by any of its four
  identifiers, with or without high bits, and unbinds its thread before `captbl_clear` insists on the
  first identifier. The tree survives if and only if the call stops before that, or the identifier is
  the first one of the capability, in a line that can be written
  (`Notifications.Receivers.Deactivate`). After a call with the second identifier, two activations
  close a loop that never reaches the root (`Notifications.LoopAfterFailedClear`), and a second
  deactivation meets the assertion that the thread has a tcap (`Notifications.DeactivatedAgain`).
* **Customizing the overhead.** With two lightest cuts of the same weight the trading need not end.
  `PolicyRuns.NeverEnds` is a run of four components, for any limit from 11 to 15, in which no round
  ever ends the loop: two components take turns in having a domain of their own, and each round
  changes what the two heaps offer. It does not depend on how the heaps break ties, since of several
  lightest cuts the search keeps the first one it meets (`MinCuts.Domain.FindMinCut`). Without such a
  tie, which is something to look for in the invocation counts alone, the loop ends
  (`Trades.UntiedIsSame`, `Policies.Policy.TradeToLimit`). With one it may still end, so this condition
  is sufficient and not necessary.
* **A saved cut.** The minimum-cut search asserts that it found a side. It does if and only if some
  cut is below `MAX_LONG` (`MinCuts.SideFound`). This is what the definition of a minimum cut with
  that starting value amounts to, on unbounded integers; in the source the sums of type `long` would
  overflow before a cut gets that heavy. `Policies.Policy.Sound` keeps all invocations together below
  `MAX_LONG`, where neither can happen.
* **The first capability frontier.** `cos_capfrontier_init` leaves room for the reserved line if and
  only if the frontier is not 0 and not 128 modulo 256 (`CapIds.InitLeavesRoom`), and a component
  starts out well if and only if there is that room (`CapIds.CompInfo.constructor`).
* **Virtual ranges.** A range that is not empty comes back with its tables if and only if it does not
  start at 0 and ends before the last second-level table (`Ranges.AddressSpace.Alloc`, `CanServe`).
  The first range from a heap in the last table does if and only if it takes up the rest of the
  address space.
  The loop that installs tables ends if and only if the range ends before that table
  (`Ranges.InstallEndsExactly`), the loop that keeps the record if and only if the record is past the
  start of the range already or will be (`Ranges.RecordEndsExactly`). There is a run for each way to
  fail: `IntoLastTable`, `FromZero`, `UpToTheEnd`, `PastTheEnd` and `EmptyRange`.

In the first case the comment in the source speaks of a mandatory flush on all cores
(`src/kernel/pgtbl.c:62-63`) and the loop after it visits `NUM_CPU_COS` of them; the model follows
the loop. Two guards of the source never fire: the one for too many references
(`src/kernel/retype_tbl.c:40`) compares a signed 28-bit field with a value that it cannot hold, and
the one for too many delegations (`src/kernel/tcap.c:149`) looks at a count that never exceeds the
bound.

## Model

| member | source | states |
|---|---|---|
| `Heaps.Heap.constructor` | src/components/lib/heap.c:140-151 | a new heap is empty, of the given capacity, with every recorded position 0 |
| `Heaps.Heap.SwapEntries` | src/components/lib/heap.c:15-26 | exactly the two entries change place, and both recorded positions follow |
| `Heaps.Heap.SwapDown` | src/components/lib/heap.c:33-65 | a heap ordered but for one sinking entry becomes ordered, with the same elements and true positions |
| `Heaps.Heap.SwapUp` | src/components/lib/heap.c:67-86 | a rising entry stops where only its children may still be out of order |
| `Heaps.Heap.Heapify` | src/components/lib/heap.c:89-94 | one entry out of order in either direction is repaired, for any total preorder |
| `Heaps.Heap.Add` | src/components/lib/heap.c:178-196 | adds exactly the element unless the heap is full, and keeps order and positions |
| `Heaps.Heap.TopIsHighest` | src/components/lib/heap.c:198-225 | in an ordered heap the root compares at least as high as every element |
| `Heaps.Heap.Highest` | src/components/lib/heap.c:198-217 | removes and returns a maximal element, fails exactly on the empty heap, and keeps order and positions |
| `Heaps.Heap.Peek` | src/components/lib/heap.c:219-225 | returns a maximal element without removing it, and fails exactly on the empty heap |
| `Heaps.Heap.Adjust` | src/components/lib/heap.c:227-236 | after an arbitrary change to one key, the heap is ordered by the new keys with the same elements |
| `Heaps.Heap.Remove` | src/components/lib/heap.c:238-263 | removes exactly the element at the index, whose position becomes 0, and restores order |
| `Cuts.PhaseStep` | src/components/include/archives/mpd_policy.h:670-673 | absorbing one more vertex keeps the bound of the next vertex by the cut restricted to what is absorbed |
| `Cuts.PhaseInvariant` | src/components/include/archives/mpd_policy.h:807-859 | for every cut that respects the groups, each vertex that the cut separates from its predecessor weighs no more than the cut restricted to the vertices before it |
| `Cuts.CutOfPhase` | src/components/include/archives/mpd_policy.h:807-859 | cutting off the last vertex of a phase is a minimum among all cuts that separate it from the last but one |
| `MinCuts.Domain.GroupWeight` | src/components/include/archives/mpd_policy.h:683-707 | is the weight of all edges, in both directions, between one component and a group |
| `MinCuts.Domain.GroupToGroupWeight` | src/components/include/archives/mpd_policy.h:709-735 | is the weight of all edges between two groups |
| `MinCuts.Domain.HeapAdjust` | src/components/include/archives/mpd_policy.h:737-744 | adds the edge to the weight of a waiting group only, and re-establishes the heap |
| `MinCuts.Domain.AdjustHeap` | src/components/include/archives/mpd_policy.h:746-775 | every waiting group gains exactly its weight to the component |
| `MinCuts.Domain.GroupAdjustHeap` | src/components/include/archives/mpd_policy.h:777-789 | every waiting group gains exactly its weight to the absorbed group |
| `MinCuts.Domain.FillHeap` | src/components/include/archives/mpd_policy.h:821-832 | all groups but the start wait in the heap with their weight to it |
| `MinCuts.Domain.AbsorbOne` | src/components/include/archives/mpd_policy.h:847-851 | the absorbed group is one most tightly connected to all absorbed before, and the weights stay exact |
| `MinCuts.Domain.Phase` | src/components/include/archives/mpd_policy.h:807-859 | the order of absorption is by tightest connection, the two last groups are returned, and the value is the cut of the last one; fails exactly when one group is left |
| `MinCuts.LastGroupIsCheapest` | src/components/include/archives/mpd_policy.h:807-859 | the last group of a phase is a cheapest cut between the two last groups |
| `MinCuts.Domain.AppendLists` | src/components/include/archives/mpd_policy.h:882-906 | two groups become one, every member list and master is right, and there is one group less |
| `MinCuts.Domain.PrepareData` | src/components/include/archives/mpd_policy.h:908-930 | every member is its own group and no cut is saved |
| `MinCuts.MergeSettles` | src/components/include/archives/mpd_policy.h:959-985 | after a phase, cuts that split the merged pair are settled, so only cuts that respect the groups can beat the best one |
| `MinCuts.Domain.SaveCut` | src/components/include/archives/mpd_policy.h:969-979 | saves exactly the members of the group and its value |
| `MinCuts.Domain.KeepBest` | src/components/include/archives/mpd_policy.h:967-981 | the saved cut is attained by the saved side and never gets worse; a cut takes the place of heavier ones only, so no cut as light splits its side |
| `MinCuts.Domain.FindMinCut` | src/components/include/archives/mpd_policy.h:936-999 | the saved amount is the minimum over all proper non-empty subsets of the members, and the saved members are a subset that attains it, without the member the search starts from, which no cut as light splits |
| `MinCuts.SideFound` | src/components/include/archives/mpd_policy.h:987 | the asserted side exists exactly when some cut is below `MAX_LONG` |
| `Policies.Policy.constructor` | src/components/include/archives/mpd_policy.h:1092-1114 | without components and edges all books balance |
| `Ledgers.Reinvoke` | src/components/include/archives/mpd_policy.h:267-299 | changing one edge's invocations moves its domain edge and the totals by the same difference, which stays non-negative |
| `Policies.Policy.SetInv` | src/components/include/archives/mpd_policy.h:284-299 | sets one edge and keeps the totals and all domain-edge weights equal to their sums |
| `Ledgers.Uncharge` | src/components/include/archives/mpd_policy.h:461-483 | taking an edge off its domain edge keeps the ledger, and the domain edge had a constituent to lose |
| `Policies.Policy.RemovePdEdge` | src/components/include/archives/mpd_policy.h:461-483 | exactly this edge loses its domain edge; a domain edge left without constituents is freed |
| `Ledgers.DropEmpty` | src/components/include/archives/mpd_policy.h:301-334 | a domain edge without constituents weighs nothing, so freeing it keeps the ledger |
| `Policies.Policy.FindEdge` | src/components/include/archives/mpd_policy.h:398-425 | finds the domain edge of an unordered pair or creates the only one |
| `Ledgers.Charge` | src/components/include/archives/mpd_policy.h:531-542 | attaching an edge to a domain edge keeps the ledger |
| `Policies.Policy.AddPdEdge` | src/components/include/archives/mpd_policy.h:531-542 | exactly this edge gets a domain edge, between the two domains, and the ledger is kept |
| `Policies.Policy.RemComponent` | src/components/include/archives/mpd_policy.h:489-529 | removes exactly the component from its domain, uncharges its edges, and frees the domain exactly when it was the last one |
| `Policies.Policy.AddComponent` | src/components/include/archives/mpd_policy.h:544-579 | puts exactly the component into the domain; every edge is charged to the pair of domains it crosses |
| `Ledgers.TotalIsCrossCost` | src/components/include/archives/mpd_policy.h:259-299 | the running total is the sum of invocations over the edges whose ends lie in different domains |
| `Ledgers.PairWeight` | src/components/include/archives/mpd_policy.h:259-275 | the weight of a domain edge is the weight of all edges between the members of its two domains |
| `Ledgers.MergeSaves` | src/components/include/archives/mpd_policy.h:583-622 | joining two domains lowers the cross-domain cost by the weight between them |
| `Ledgers.SplitCosts` | src/components/include/archives/mpd_policy.h:629-668 | moving a part of a domain out raises the cross-domain cost by the cut of that part |
| `Policies.Policy.MergeDomains` | src/components/include/archives/mpd_policy.h:583-609 | all members move, the emptied domain is gone, other domains are untouched, and the total falls by the weight between the two |
| `Policies.Policy.Merge` | src/components/include/archives/mpd_policy.h:611-622 | a merge followed by the new minimum cut keeps everything in order with one domain less and never raises the total; the new cut weighs no more than what was between the two |
| `Policies.Policy.SplitDomain` | src/components/include/archives/mpd_policy.h:629-668 | the given side moves to a fresh domain, and the total rises by its cut |
| `Policies.Policy.Split` | src/components/include/archives/mpd_policy.h:629-668 | a split along the saved cut raises the total by exactly the saved amount, and both halves get new minimum cuts |
| `Policies.Policy.CreateComponent` | src/components/include/archives/mpd_policy.h:1007-1018 | a new component lives alone in a new domain and nothing else moves |
| `Policies.Policy.AddEdge` | src/components/include/archives/mpd_policy.h:427-459 | appends exactly the edge and keeps all books |
| `Policies.Policy.FindCut` | src/components/include/archives/mpd_policy.h:936-999 | the domain's saved cut is its minimum cut, it is saved exactly for a domain with at least two members, and other saved cuts stay |
| `Policies.Policy.DecreaseOverhead` | src/components/include/archives/mpd_policy.h:1136-1147 | merges along a heaviest domain edge, lowers the total by its weight, and leaves a domain whose cut weighs no more |
| `Policies.Policy.IncreaseIsolation` | src/components/include/archives/mpd_policy.h:1123-1134 | splits a domain of cheapest cut and raises the total by that cut |
| `Policies.Policy.RecomputeMinCuts` | src/components/include/archives/mpd_policy.h:1179-1187 | afterwards every domain with at least two members has its minimum cut saved |
| `Policies.Policy.RemoveOverheadToLimit` | src/components/include/archives/mpd_policy.h:1254-1260 | is a run of merges along heaviest domain edges that ends with a total within the limit, or with no cross-domain cost at all |
| `Policies.Policy.SplitToLimit` | src/components/include/archives/mpd_policy.h:1231-1233 | is a run of splits along lightest cuts, each within the limit, that ends where no further one would be |
| `Ledgers.FinestCostsMost` | src/components/include/archives/mpd_policy.h:1235-1251 | no division into domains costs more than all components apart |
| `Policies.Policy.StillToSplit` | src/components/include/archives/mpd_policy.h:1250 | below a limit that a split reached before, some domain can still be split, so the peek finds its heap filled |
| `Policies.Policy.Trade` | src/components/include/archives/mpd_policy.h:1242-1247 | is a merge along a heaviest domain edge and then as many splits as fit; the total ends up below the limit, with a domain left to split |
| `Policies.Policy.TradeRound` | src/components/include/archives/mpd_policy.h:1237-1250 | whether the heaps offer after the round what they offered before; neither peek fails |
| `Policies.Policy.TradeToLimit` | src/components/include/archives/mpd_policy.h:1235-1251 | the third loop ends with nothing left to trade, or with a round that repeats both offers, or comes to a round that changes the lightest cut only, which takes a tie; says which of the three |
| `Policies.Policy.CustomizeOverhead` | src/components/include/archives/mpd_policy.h:1209-1252 | the total is within the limit (or zero), no further split would stay under it, and which way the third loop ended; without a tie it has nothing left to trade or repeats its offers |
| `Trades.EvenSplitsOnce` | src/components/include/archives/mpd_policy.h:1242-1247 | a round that keeps the number of domains makes one split |
| `Trades.RoundProgress` | src/components/include/archives/mpd_policy.h:1235-1251 | from below the limit, a round leaves more domains, or as many and a total that is no larger |
| `Trades.EvenKeepsHeaviest` | src/components/include/archives/mpd_policy.h:1235-1251 | after a round that keeps the number of domains and the total, the heaviest domain edge is no lighter |
| `Trades.EvenIsTied` | src/components/include/archives/mpd_policy.h:1235-1251 | such a round that changes the division into domains exchanges two lightest cuts of the same weight |
| `Trades.UntiedIsSame` | src/components/include/archives/mpd_policy.h:1249-1250 | such a round repeats both offers, and so ends the loop, unless the invocation counts have a tie |
| `PolicyRuns.OuterCut` | src/components/include/archives/mpd_policy.h:936-999 | on the four components of the run the search finds the end it does not start from, whatever the order of the others |
| `PolicyRuns.SwingRound` | src/components/include/archives/mpd_policy.h:1235-1251 | every round from one end alone leaves the other end alone |
| `PolicyRuns.MergesTwice` | src/components/include/archives/mpd_policy.h:1225-1227 | the first loop makes two merges, after which one end is alone |
| `PolicyRuns.NeverEnds` | src/components/include/archives/mpd_policy.h:1209-1252 | for every number of rounds, a run from the creation of the components in which none of them ended the loop and there is more to trade |
| `Retype.InitInv` | src/kernel/retype_tbl.c:225-257 | a fresh table satisfies the invariant |
| `Retype.RefStepInv` | src/kernel/include/pgtbl.h:277-310 | taking a reference and installing the mapping, or giving it back when the entry changed, keeps the invariant |
| `Retype.UninstallStepInv` | src/kernel/include/pgtbl.h:396-430 | removing a mapping turns its reference into one in flight |
| `Retype.DerefStepInv` | src/kernel/retype_tbl.c:20-54 | a dereference stamps before it lowers the count, and a failed one is recorded as lost or undone |
| `Retype.ReinstallStepInv` | src/kernel/capinv.c:274-295 | a kernel page that could not be released is put back, or its reference counts as lost |
| `Retype.TypeStepInv` | src/kernel/retype_tbl.c:75-121 | every step of typing an untyped set keeps the invariant |
| `Retype.LockEntry` | src/kernel/retype_tbl.c:163-173 | locking one core's entry adds its count to the sum exactly and keeps the invariant |
| `Retype.ReadStampInv` | src/kernel/retype_tbl.c:174-177 | the stamp is read while the entry is locked, so every counted removal on that core is known |
| `Retype.Quiesced` | src/kernel/retype_tbl.c:178-185 | a zero sum and recent enough flushes mean no mapping, no activation, no reference in flight or lost, and no cached translation on the cores checked |
| `Retype.TestMandatoryInv` | src/kernel/pgtbl.c:51-81 | the loop over mandatory flushes accepts only when each of the cores checked was flushed since the newest stamp |
| `Retype.StoreFlushInv` | src/kernel/capinv.c:25-36 | a flush whose time is read before it and stored after it never claims too much |
| `Retype.CasRestoreInv` | src/kernel/retype_tbl.c:206-213 | undoing the locks never meets a changed entry |
| `Retype.StepInv` | src/kernel/retype_tbl.c:20-223 | every step of every core keeps: types agree, one holder of the lock, counts add up to live, in-flight and lost references, stamps and flush times are in order |
| `Retype.RunInv` | src/kernel/retype_tbl.c:20-223 | the invariant holds after every run, whatever the interleaving |
| `Retype.CommitIsSafe` | src/kernel/retype_tbl.c:187-199 | at every commit to untyped no page is mapped or activated, no reference is in flight or lost, no core that is checked caches a translation, and every entry is untyped with count 0 |
| `Retype.TypesAgree` | src/kernel/retype_tbl.c:75-223 | outside of a retype all entries have the global type, an untyped set has zero counts, and the counts sum to the references there are |
| `Retype.AssertionsHold` | src/kernel/retype_tbl.c:118-219 | the four assertions of the protocol never fire |
| `Retype.FailureRestores` | src/kernel/retype_tbl.c:202-223 | a retype that backs out leaves every entry and the global one with the type it found |
| `Retype.NoTlbAtAll` | src/kernel/pgtbl.c:51-81 | after a periodic flush, or when all cores including the last were flushed since the newest stamp, no TLB caches the set from the check to the commit, whatever other cores do |
| `Retype.ClearingStep` | src/kernel/retype_tbl.c:187-199 | while a set is cleared no step of any core caches a translation to it again |
| `RetypeRuns.LastCoreCanStayStale` | src/kernel/pgtbl.c:61-71 | on any two or more cores some run commits while the last core still caches a translation |
| `RetypeRuns.FlushedExactly` | src/kernel/pgtbl.c:51-81 | all TLBs are clean at every commit of every run if and only if there is one core |
| `Lists.InsertBetween` | src/kernel/include/list.h:28-44 | the four pointer writes turn a cycle into the cycle with the node inserted, and touch nothing else |
| `Lists.RemoveFrom` | src/kernel/include/list.h:46-52 | the pointer writes take the node out of the cycle and leave it alone on its own |
| `Lists.FamilyChange` | src/kernel/include/list.h:21-66 | changing one list keeps all other lists of the family well-formed and disjoint |
| `Lists.Links.Init` | src/kernel/include/list.h:21-26 | a new node is on no list |
| `Lists.Links.HeadInit` | src/kernel/include/list.h:62-66 | a new head is an empty list of its own |
| `Lists.Links.AddBefore` | src/kernel/include/list.h:28-35 | inserts the node right before the given one; before the head means at the end |
| `Lists.Links.AddAfter` | src/kernel/include/list.h:37-44 | inserts the node right after the given one |
| `Lists.Links.Rem` | src/kernel/include/list.h:46-52 | removes exactly the node, from whichever list it is on, and does nothing to a node on none |
| `Lists.Links.EmptyMeans` | src/kernel/include/list.h:54-58 | the pointer test means an empty list for a head and being on no list for a node |
| `Lists.Links.Enqueue` | src/kernel/include/list.h:69-73 | appends the node at the end of the list |
| `Lists.Links.Dequeue` | src/kernel/include/list.h:83-91 | takes the first node off, or returns the head of an empty list |
| `Delegations.Next` | src/kernel/tcap.c:163-179 | takes the smaller identifier, or at equal ones both with the larger priority number |
| `Delegations.MergeStep` | src/kernel/tcap.c:162-185 | one round of the merge keeps: sorted, the union so far, and the right priority for every identifier |
| `Delegations.MergeOverflows` | src/kernel/tcap.c:182 | running out of room means that the union is larger than the bound |
| `Delegations.WrittenNext` | src/kernel/tcap.c:181 | writing through the chosen element changes the source's own priority only, so the merge is not disturbed by it |
| `Delegations.MergeLoop` | src/kernel/tcap.c:162-185 | never writes past the bound, and its result is the merge, with the destination's own place |
| `Delegations.MergeDelegations` | src/kernel/tcap.c:160-199 | succeeds exactly when the union fits; the result is strictly sorted, names the union, has the larger priority number at shared schedulers and the given one at the source's own |
| `Delegations.MergeUnique` | src/kernel/tcap.c:162-185 | the specification of the merge determines its result |
| `Delegations.Walk` | src/kernel/include/tcap.h:286-305 | the two-cursor walk accepts exactly when the first list is no worse at every scheduler in both |
| `Tcaps.Transfer` | src/kernel/tcap.c:75-107 | when it fails; infinite only from infinite; never infinite by saturation; granted, absorbed and moved cycles balance; finite transfers create nothing |
| `Tcaps.TcapSystem.constructor` | src/kernel/tcap.c:247-251 | every core starts with an empty active list |
| `Tcaps.TcapSystem.ActiveIffBudget` | src/kernel/include/tcap.h:119-123 | a tcap is linked if and only if its budget is not zero |
| `Tcaps.TcapSystem.Activate` | src/kernel/tcap.c:109-126 | a new tcap has a scheduler identifier that no other tcap of its core has, no budget, and is not linked |
| `Tcaps.TcapSystem.Boot` | src/platform/i386/boot_comp.c:114-123 | the root tcap of a core is live, infinite and linked, with one reference and only its own scheduler |
| `Tcaps.TcapSystem.Consume` | src/kernel/include/tcap.h:159-179 | what is charged and what is left; an expended tcap is unlinked and keeps only its own scheduler; the ledger moves by exactly what was consumed |
| `Tcaps.AccountsTransfer` | src/kernel/tcap.c:75-107 | a balanced transfer keeps: finite budgets plus consumed plus absorbed cycles equal what infinite tcaps granted |
| `Tcaps.TcapSystem.BudgetXfer` | src/kernel/tcap.c:75-107 | exact success condition; only the two budgets change; the list and the ledger follow; failure changes nothing |
| `Tcaps.DelegatedMerge` | src/kernel/tcap.c:194-201 | the merged list names both schedulers, so it has two entries or more and the destination's place in it is known |
| `Tcaps.TcapSystem.Delegate` | src/kernel/tcap.c:135-209 | the exact error in each case; on success budgets, list, own place and priorities of both; on error no budget, no name and no link changes |
| `Tcaps.TcapSystem.Promote` | src/kernel/tcap.c:128-133 | binds the tcap to its end-point and changes nothing else |
| `Tcaps.TcapSystem.Demote` | src/kernel/include/inv.h:183-185 | takes the tcap off its end-point and changes nothing else |
| `Tcaps.TcapSystem.Refer` | src/kernel/include/tcap.h:93-103 | one reference more or less, and nothing else |
| `Tcaps.TcapSystem.Delete` | src/kernel/tcap.c:56-69 | succeeds exactly on a tcap with one reference; deletion without unlinking keeps the system well-formed if and only if the budget was zero |
| `Tcaps.TcapSystem.Merge` | src/kernel/tcap.c:211-221 | exact success condition, the resulting budget and delegations, and that the list stays well-formed if and only if the removed budget was finite |
| `Tcaps.InfiniteTcap` | src/kernel/tcap.c:75-107 | a delegation of everything from the root makes a tcap infinite and links it right before the root |
| `Tcaps.DeletedButLinked` | src/kernel/tcap.c:211-221 | a run after which the first tcap on the active list is deleted and without budget |
| `Tcaps.TcapSystem.HigherPrio` | src/kernel/include/tcap.h:277-306 | true exactly when the first tcap has budget and is the second one or is no worse at every shared scheduler |
| `Tcaps.TcapSystem.ActiveNext` | src/kernel/include/tcap.h:137-141 | returns a live tcap of the core with budget, and always one where the root tcap was set up |
| `Tcaps.TcapSystem.BudgetsUpdate` | src/kernel/include/tcap.h:219-232 | charges the low 32 bits of the elapsed cycles, and reports exactly whether the budget is gone |
| `Tcaps.TcapSystem.ChooseNext` | src/kernel/capinv.c:578-597 | the next tcap has budget, so the assertion on the active list never fires |
| `Tcaps.TcapSystem.CapUpdate` | src/kernel/capinv.c:568-628 | the spent tcap is inactive and the one switched to has budget whenever the current one ran out |
| `Tcaps.TcapSystem.CurrentSet` | src/kernel/include/tcap.h:206-214 | the tcap gets its permanent priority back and nothing else changes |
| `Linkers.Pigeonhole` | src/platform/linker/vds.c:14-38 | a path longer than the number of components visits one twice |
| `Linkers.AcyclicIsShallow` | src/platform/linker/vds.c:52-73 | a graph is acyclic if and only if no component has a dependency path of one step more than there are components |
| `Linkers.RankBoundsWalks` | src/platform/linker/vds.c:14-38 | depths that grow along dependencies bound every dependency path that ends at a component |
| `Linkers.Linker.constructor` | src/platform/linker/prepsymbs.c:183 | every depth starts at -1 |
| `Linkers.Linker.RecVerifyDag` | src/platform/linker/vds.c:14-38 | succeeds exactly when no path from here is too long; every depth is the length of a walk, and success ranks all that was raised |
| `Linkers.Linker.VerifyDependencySoundness` | src/platform/linker/vds.c:52-73 | returns 0 exactly for acyclic graphs, with depths that grow along every dependency and are the longest walk to each component |
| `Linkers.Schedule` | src/platform/linker/output.c:479-499 | scheduling a component whose dependencies are done keeps the order topological and within the array |
| `Linkers.Linker.MakeSpdBootSchedule` | src/platform/linker/output.c:473-499 | ends, extends the schedule without overrun, schedules the component after its dependencies, and marks only components at its depth or deeper |
| `Linkers.Linker.CountLoaded` | src/platform/linker/output.c:561-568 | the size of the array is the number of components that the booter loads |
| `Linkers.Linker.MakeSpdBoot` | src/platform/linker/output.c:561-575 | the schedule is full, has every loaded component exactly once, each after its loaded dependencies |
| `Linkers.Linker.Link` | src/platform/linker/main.c:118-121 | succeeds exactly on acyclic graphs, and then the boot order is complete and topological |
| `Tries.DigitIsMasked` | src/kernel/include/ertrie.h:288-304 | the shift and mask of a level is one digit of the identifier |
| `Tries.SameDigits` | src/kernel/include/ertrie.h:233-240 | identifiers below the maximum with the same digits are the same |
| `Tries.DistinctLeaves` | src/kernel/include/ertrie.h:324-349 | different leaf numbers never reach the same leaf, for any depth and width |
| `Tries.GrownTree` | src/kernel/include/ertrie.h:363-400 | hooking in a fresh node keeps the tree a tree |
| `Tries.ReachGrown` | src/kernel/include/ertrie.h:363-400 | hooking in a fresh node changes no lookup but that of identifiers that reached nothing |
| `Tries.Trie.constructor` | src/kernel/include/ertrie.h:267-286 | a new trie has a root only and finds nothing below it |
| `Tries.Trie.Entry` | src/kernel/include/ertrie.h:288-304 | the index computed at a level is that digit of the identifier |
| `Tries.Trie.Lookup` | src/kernel/include/ertrie.h:324-349 | the loop over levels reaches the leaf that the digits name, or stops at a missing node |
| `Tries.Trie.DistinctSlots` | src/kernel/include/ertrie.h:324-349 | two identifiers below the maximum at the same slot of the same leaf are the same |
| `Tries.Trie.Expand` | src/kernel/include/ertrie.h:363-400 | uses no more memory than needed, makes the leaf reachable when it succeeds to full depth, and preserves every other lookup |
| `Captbls.FindMeans` | src/kernel/include/captbl.h:146-177 | an identifier resolves to an entry exactly when that entry is active and its span holds the identifier; all entries of a line have its size |
| `Captbls.GetLeaf` | src/kernel/include/captbl.h:146-177 | the size-directed search returns the entry whose span holds the identifier |
| `Captbls.ActivatedFinds` | src/kernel/include/captbl.h:264-362 | activating an aligned entry of the line's size keeps the line well-formed and changes lookup in its span only |
| `Captbls.ClearedFinds` | src/kernel/include/captbl.h:415-459 | clearing an entry keeps the line well-formed and changes lookup in its span only |
| `Captbls.CapTable.constructor` | src/kernel/include/captbl.h:511-530 | a new table finds nothing |
| `Captbls.CapTable.Expand` | src/kernel/include/captbl.h:473-484 | the exact result in each case; success makes room for the identifier, and no lookup and no line changes |
| `Captbls.CapTable.Lookup` | src/kernel/include/captbl.h:231-246 | returns the entry of the identifier taken modulo the size of the table |
| `Captbls.CapTable.Add` | src/kernel/include/captbl.h:264-362 | succeeds exactly when the slot is reachable, aligned, free, writable and of the line's size; then exactly the identifiers of its span, which found nothing, resolve to it; failure changes nothing |
| `Captbls.CapTable.Clear` | src/kernel/include/captbl.h:415-459 | succeeds exactly on an active entry of that type in a writable line; then exactly the identifiers that resolved to it resolve to nothing; failure changes nothing |
| `CapIds.InitLeavesRoom` | src/components/lib/cos_kernel_api.c:47-70 | there is room for the reserved line exactly when the frontier is not 0 and not 128 modulo 256 |
| `CapIds.RangeGrows` | src/components/lib/cos_kernel_api.c:175-265 | each expansion keeps the frontier within the expanded range |
| `CapIds.NotReserved` | src/components/lib/cos_kernel_api.c:175-265 | a line handed out is never the one kept for the next expansion |
| `CapIds.TakeLine` | src/components/lib/cos_kernel_api.c:267-291 | a fresh line belongs to one size class and core only |
| `CapIds.TakeSpan` | src/components/lib/cos_kernel_api.c:267-291 | a span taken from the current line is disjoint from all given out before |
| `CapIds.CompInfo.constructor` | src/components/lib/cos_kernel_api.c:72-92 | the component starts out well if and only if its frontier leaves room |
| `CapIds.CompInfo.CheckExpand` | src/components/lib/cos_kernel_api.c:175-265 | afterwards there is a line below the range; the recursion goes to the resource component at most once |
| `CapIds.CompInfo.NewLine` | src/components/lib/cos_kernel_api.c:267-291 | at the end of a line the class gets a line of its own |
| `CapIds.CompInfo.Alloc` | src/components/lib/cos_kernel_api.c:293-320 | the new span is disjoint from all before, below the expanded range, in a line of its class, never the reserved one |
| `Ranges.RoundUpMeans` | src/components/lib/cos_kernel_api.c:34-45 | rounding in 32 bits is the least boundary not below, and 0 past the last one |
| `Ranges.Wraps` | src/components/lib/cos_kernel_api.c:480-486 | the wrapped subtraction cancels: the tables to install end where the range ends, whatever the sizes |
| `Ranges.InstallEndsExactly` | src/components/lib/cos_kernel_api.c:369-372 | the loop that installs tables ends if and only if the range ends before the last table; otherwise its address wraps around for ever |
| `Ranges.RecordEndsExactly` | src/components/lib/cos_kernel_api.c:489-496 | the loop that keeps the record ends if and only if the record is past the start, or the range ends before the last table |
| `Ranges.Serves` | src/components/lib/cos_kernel_api.c:480-498 | tables and record after a range that can be served |
| `Ranges.Fails` | src/components/lib/cos_kernel_api.c:480-498 | any other call that returns has gone past the end of the address space |
| `Ranges.ConsecutiveMeans` | src/components/lib/cos_kernel_api.c:364-377 | the installed tables are all and only those between the two frontiers, each once |
| `Ranges.AddressSpace.constructor` | src/components/lib/cos_kernel_api.c:34-45 | no range is given out, no table is installed, and the record is rounded, as asserted, for every heap address |
| `Ranges.AddressSpace.ExpandRange` | src/components/lib/cos_kernel_api.c:364-377 | when the loop never ends, when each of the two assertions fires, and that exactly the missing tables are installed otherwise |
| `Ranges.AddressSpace.Advance` | src/components/lib/cos_kernel_api.c:489-496 | when the loop ends, and where the recorded frontier is then |
| `Ranges.AddressSpace.Alloc` | src/components/lib/cos_kernel_api.c:469-511 | how every call ends; the range comes back with a table for each address exactly when it can be served; then ranges are consecutive and each table was installed once |
| `Ranges.IntoLastTable` | src/components/lib/cos_kernel_api.c:369-372 | a run in which the installing loop never ends |
| `Ranges.FromZero` | src/components/lib/cos_kernel_api.c:486-487 | a run in which the assertion on the returned address fires |
| `Ranges.UpToTheEnd` | src/components/lib/cos_kernel_api.c:484 | a run in which a range comes back without its tables |
| `Ranges.PastTheEnd` | src/components/lib/cos_kernel_api.c:374 | a run in which the assertion on the range fires |
| `Ranges.EmptyRange` | src/components/lib/cos_kernel_api.c:489-496 | a run in which the recording loop never ends |
| `Rings.FirstInFirstOut` | src/components/include/archives/ck_ring_cos.h:259-403 | in every run of a bounded queue what was taken is, in order, the front of what was entered |
| `Rings.SlotIsModulo` | src/components/include/archives/ck_ring_cos.h:259-280 | taking off the size for as long as it fits picks the slot modulo the size, which is what the mask does for a power of two |
| `Rings.ProduceInv` | src/components/include/archives/ck_ring_cos.h:259-280 | each load and store of an enqueue keeps the invariant and linearizes where the tail is stored or the ring is seen full |
| `Rings.ConsumeInv` | src/components/include/archives/ck_ring_cos.h:344-403 | each load, store and compare-and-swap of a dequeue keeps the invariant and linearizes where the head moves or the ring is seen empty |
| `Rings.StepInv` | src/components/include/archives/ck_ring_cos.h:259-403 | every step of every thread keeps the invariant |
| `Rings.RunInv` | src/components/include/archives/ck_ring_cos.h:259-403 | the invariant holds after every run |
| `Rings.InitInv` | src/components/include/archives/ck_ring_cos.h:405-415 | a new ring satisfies the invariant |
| `Rings.Linearizable` | src/components/include/archives/ck_ring_cos.h:259-403 | every run is a run of a bounded queue of one slot less, with each call's effect between its call and its return, and the counters hold what the queue holds |
| `Rings.SmallIsTruthful` | src/components/include/archives/ck_ring_cos.h:344-361 | with at most two slots or one consumer, an unsuccessful try means that the queue was empty during the call |
| `Rings.BigIsNot` | src/components/include/archives/ck_ring_cos.h:344-361 | with three slots and two consumers or more, some run has a try fail while the queue is never empty |
| `Rings.TruthfulExactly` | src/components/include/archives/ck_ring_cos.h:344-361 | the exact sizes and numbers of consumers for which an unsuccessful try means empty |
| `EndPoints.ArcvTable.constructor` | src/platform/i386/boot_comp.c:130-132 | a table with the capability of the root and room in its other lines |
| `EndPoints.ArcvTable.Find` | src/kernel/include/captbl.h:231-246 | finds the receive capability by any identifier that agrees with one of its four |
| `EndPoints.ArcvTable.Add` | src/kernel/include/captbl.h:264-362 | adds a receive capability exactly where there is room, and takes no room elsewhere |
| `EndPoints.ArcvTable.Clear` | src/kernel/include/captbl.h:415-459 | clears a receive capability exactly by its first identifier, in a writable line |
| `EndPoints.ArcvTable.Grow` | src/kernel/include/captbl.h:473-484 | growing the table keeps every receive capability |
| `EndPoints.ArcvTable.AddOther` | src/kernel/include/captbl.h:264-362 | adding a capability of another type keeps every receive capability |
| `EndPoints.ArcvTable.ClearOther` | src/kernel/include/captbl.h:415-459 | clearing a capability of another type keeps every receive capability |
| `Notifications.ChainEnds` | src/kernel/include/inv.h:196-244 | from every bound thread the chain of notifications reaches the root in fewer than the bounded number of steps |
| `Notifications.BindTree` | src/kernel/include/inv.h:154-167 | binding a thread below an end-point keeps the tree |
| `Notifications.UnbindTree` | src/kernel/include/inv.h:169-188 | unbinding a thread that nobody notifies keeps the tree |
| `Notifications.BindCounted` | src/kernel/include/thd.h:109-113 | binding keeps each thread's count equal to the number of bound threads that notify it |
| `Notifications.UnbindCounted` | src/kernel/include/thd.h:115-119 | unbinding keeps each thread's count equal to the number of bound threads that notify it |
| `Notifications.BindHeld` | src/kernel/include/inv.h:154-167 | binding keeps each tcap's references equal to one more than the threads bound with it |
| `Notifications.UnbindHeld` | src/kernel/include/inv.h:179-187 | unbinding keeps them so |
| `Notifications.HeldTwice` | src/kernel/include/inv.h:175-177 | the tcap of a bound thread has more than one reference |
| `Notifications.Unreferenced` | src/kernel/include/thd.h:121-125 | a thread with no count is notified by nobody |
| `Notifications.Receivers.constructor` | src/platform/i386/boot_comp.c:127-132 | the root notifies itself and is alone |
| `Notifications.Receivers.NewThread` | src/kernel/include/thd.h:315-352 | a new thread is unbound and on no queue, and everything else stays |
| `Notifications.Receivers.NewTcap` | src/kernel/tcap.c:109-126 | a new tcap has one reference and no end-point |
| `Notifications.Receivers.Setup` | src/kernel/include/inv.h:154-167 | binds the thread, counts both references, and keeps the tree with the new capability |
| `Notifications.Receivers.Activate` | src/kernel/include/inv.h:196-244 | succeeds exactly for a parent that the identifier finds, an unbound thread, a depth below the bound and a free place in the table; failure changes nothing |
| `Notifications.Receivers.Deactivate` | src/kernel/include/inv.h:246-257 | the exact result, also for a capability left behind; the tree survives if and only if the call stops early or the identifier is the first one of a capability in a writable line |
| `Notifications.Receivers.Teardown` | src/kernel/include/inv.h:169-188 | refused exactly for the thread that the tcap is hooked into; leaves a tree only once the end-point is gone too |
| `Notifications.LoopAfterFailedClear` | src/kernel/include/inv.h:246-257 | a run in which an end-point is deactivated by its second identifier and a later chain never reaches the root |
| `Notifications.DeactivatedAgain` | src/kernel/include/inv.h:175-176 | a run in which a second deactivation, by any of the identifiers, meets the assertion on the tcap |
| `Notifications.Receivers.Grow` | src/kernel/include/captbl.h:473-484 | growing the table keeps the tree |
| `Notifications.Receivers.AddOther` | src/kernel/include/captbl.h:264-362 | adding a capability of another type keeps the tree |
| `Notifications.Receivers.ClearOther` | src/kernel/include/captbl.h:415-459 | clearing one keeps the tree |
| `Notifications.Receivers.SetReceiving` | src/kernel/capinv.c:929-934 | marking a thread as receiving keeps tree and counts |
| `Notifications.Receivers.EvtEnqueue` | src/kernel/include/thd.h:181-185 | a thread on no queue goes to the end of the given one, so it is never on two |
| `Notifications.Receivers.EvtDequeue` | src/kernel/include/thd.h:193-197 | takes the first thread off the queue, or nothing from an empty one |
| `Notifications.Receivers.NotifyParent` | src/kernel/capinv.c:493-517 | ends within the asserted depth, has queued an event at each ancestor up to the first one that is not receiving, and keeps every other event |

## Left out

- Mutable protection domains: the heaps of domains and of domain edges are replaced by the choice of a lightest cut and a heaviest edge; only the heap of the minimum-cut search is modelled in place.
- Policies.Policy.CustomizeOverhead: makes the third loop go through a given number of the rounds that change the lightest cut only, as the loop of the source need not end; that it ends without ties is shown, and that it may not with one, but not with which ties it does.
- Mutable protection domains: allocation failure, and lists of edges as intrusive links; edges are a sequence and each component visits the ones it is on.
- Retyping: the 28-bit width of the reference count; counts are mathematical integers, and the guard against the largest count is kept as written.
- Retyping: `kmem_unalloc` (src/kernel/capinv.c:118-133), moving activated frames between tables, and the memory that is fixed at boot.
- Retyping: periodic flushes are one step for all cores, as src/kernel/pgtbl.c:56-60 takes for granted, and the time stamp counter grows with every reading.
- Retyping: reuse of one virtual address within its quiescence period; only the stamp of the memory set is modelled.
- Tcaps: wrap-around of scheduler identifiers and the width of priorities, timers, `tcap_wakeup`, and the next-thread record that `tcap_delete` also resets.
- Tcaps.TcapSystem.CapUpdate: chooses the tcap only; the choice of the thread and the switch are not modelled.
- Tcaps: use of a tcap after its deletion; a deleted tcap is dead.
- Ring: wrap-around of the counters, memory-order effects weaker than the order of the steps, and the value that an unsuccessful try may leave in the caller's variable.
- Linker: parsing of objects, symbols and images; the graph of dependencies is the input.
- Tries.Trie.Expand: expansion to a caller-given leaf value and lookups that stop at an inner level are not modelled.
- Capability tables: races between cores on one line, `captbl_del` with its quiescence period (it has no callers, so no such state is ever stored), pruning and the freeze and scan path of table pages.
- CapIds.CompInfo.Alloc: identifiers do not run out, and the system calls that expand the table succeed.
- Ranges.AddressSpace.ExpandRange: the system calls that install a table succeed; where the address wraps around, an assertion on them may fire in place of the endless loop.
- Ranges.AddressSpace.Alloc: what happens after a call that did not come back with its tables.
- Allocators: `cos_pgtbl_intern_expand` and `cos_pgtbl_intern_expandwith` (src/components/lib/cos_kernel_api.c:385-434), which also move the frontiers of virtual ranges.
- Allocators: concurrent callers; the frontiers are updated in one step each, and the physical memory allocator is not modelled.
- Notifications.Receivers.Deactivate: all receive capabilities of a core are in one table; copied or moved ones, other cores' and thread deallocation are not modelled.
- Scheduling, invocation stacks, component invocation, interrupts, boot, devices and the user-level schedulers and managers.
