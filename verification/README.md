# JSRF first-fault: the ADX guard and its tools, modelled

This project models the parts of `diagnostics/jsrf_first_fault/` whose correctness is an argument
about many interleavings or about a loop over growing state, and proves those arguments.

**The ADX guard** (`Adx*.dfy`). On the console CRI's ADX lock was priority elevation on one CPU. The
host replaces it with a recursive, owner-tracked guard that spans the guest's critical section, is let go
around blocking waits with its nesting parked, and is paired with a per-thread ledger of held locks and
owed priority restores, and with an outer nesting word in front of the refcount. `AdxModel` is a
transition system over any number of threads. Each has a program counter inside the lock, unlock,
outer-word and wait routines; one step is one `g_m` or `g_pm` critical section or one access to a
shared guest word; a schedule decides every interleaving. That a body is atomic is a theorem
(`AdxExclusion`, `AdxAtomic`), not an assumption. On top of it:

- `AdxAccounts`: where every guard level is, what the trace's leak test reads, the refcount's floor and drift;
- `AdxPriority`: when the one saved-priority slot can be poisoned, exactly;
- `AdxOwnPriority`: until then no thread has, saves or is owed any priority but its own;
- `AdxNoWaits`: without blocking waits the guard is priority elevation again;
- `AdxOuterWord`, `AdxLevels`: under the guard the outer word decides the refcount, and what that leaves of the
  guard's levels, exactly; `AdxOuterRace`: without the guard the word is no lock, and with it a level can outlive the word;
- `AdxCalls`, `AdxOuterCalls`, `AdxAtomic`, `AdxRuns`: whole calls as functions, proved to be runs of the
  fine-grained steps, left alone and under any schedule of the other threads, and the
  recorded poisoning runs built out of them;
- `AdxSpin`, `AdxWedge`: when the drop-all loop of sub_001437B0 ends, and a reachable state in which it never does;
- `AdxRuntime`: the C functions as methods of one object over the same words, proved against the
  whole-call functions.

One result deserves saying here. `adx_pay_owed` runs before the guard is taken, so a raiser can become
owed while it is queued. Poisoning happens exactly when a lock takes the guard at count 0 with a restore
still owed to its thread (`AdxPriority.PoisonedExactlyWhenLate`); such a run exists
(`AdxRuns.SplitCollectionCanPoison`), and leads to a thread that the drop-all loop never lowers
(`AdxWedge.SpinForeverIsReachable`); it needs a blocking wait (`AdxNoWaits.NeverPoisonedWithoutWaits`);
and collecting in the step that takes the guard rules it out (`AdxPriority.NeverPoisonedInOneStep`, the switch `collectWithTake`, which the program does not have).

**The tools**, one module each: `RecoveryClosure` (recovery of mid-function entries and switch arms),
`DarkSpecks` (box mean and flood fill), `MissedEvents` (greedy schedule matching), `Dispatch` (the
dispatch-table editor and the two lookups), `HitTable` (the open-addressed hit counter, its alarm and
ring), `SoundHeap` (handles and buffers of the DSOUND lift), `VertexAssembly` (immediate-mode drawing),
`DrawPacket` (the DrawVertices packet) and `Coverage` (bytes covered by intervals). Loops and objects
are methods and classes; what they compute is stated against functions whose meaning is proved apart.

Standing assumptions of the ADX model: SERIALIZE on and STEAL off; at most 64 threads, each with a ledger
record; lock, unlock and outer-word bodies do not themselves block; no thread starts at the elevated
priority; the value the lock raises to (guest word 0x25EF8C) reads back as 15. A wait hook may run guest
calls (a DPC) inside a wait, finished or not when the wait ends: what is then overwritten is the `lost`
count.

## Model

| member | source | states |
|---|---|---|
| `AdxExclusion.ExclusionAlways` | diagnostics/jsrf_first_fault/adx_guard.c:106-299 | in every state of every run of any number of threads, the guard is free exactly when its depth is 0, the owner's own depth is the guard's, and every other thread's is 0 |
| `AdxExclusion.OneInside` | diagnostics/jsrf_first_fault/adx_guard.h:24-36 | no two threads are past taking the guard at once, and the one that is holds exactly the nesting the guard records |
| `AdxExclusion.BodyIsolated` | diagnostics/jsrf_first_fault/adx_guard.h:24-28 | the atomicity of a lock or unlock body is derived: while a thread is inside one, no move of another changes that thread, any word of the guard, the refcount, the slot, the raiser or the ledger's sum, nor the outer word when the region switch is on |
| `AdxExclusion.OutsiderTouchesNothing` | diagnostics/jsrf_first_fault/adx_guard.c:335-369 | a step taken while another thread is inside, a refused unlock among them, changes no word of the guard and none of the words it protects |
| `AdxExclusion.NoHoldAndWait` | diagnostics/jsrf_first_fault/adx_guard.c:106-181 | a thread that waits for the guard, the end of a wait included, holds no level of it; its owner is another thread that is not waiting and has a move; so there is no cycle of waits and a free guard lets every waiter in |
| `AdxExclusion.RoutinesEnd` | diagnostics/jsrf_first_fault/jsrf_manual_overrides.c:217-367 | every step a routine is let make brings it nearer its return: at most 14 steps, whatever branches it takes |
| `AdxAccounts.AccountsAlways` | diagnostics/jsrf_first_fault/adx_guard.c:55-62 | every run keeps g_tsum the sum of all depths, g_parked the sum of parked depths, g_regions the sum of region levels, g_held_sum the sum of held locks, live nesting equal to locks less matched unlocks plus levels in flight less levels lost, and what each body has read still true of the shared words |
| `AdxAccounts.LeakIsLostLevels` | diagnostics/jsrf_first_fault/adx_guard.c:776-818 | for every note of every thread, the trace's leak number, with its correction of one for an admitted unlock, is the number of levels that ends of waits have overwritten, less one if and only if another thread is then between a move of its nesting and the counter that explains it; so it is exact for every note a holder makes, notes of a collected restore included |
| `AdxAccounts.LeakReadsZero` | diagnostics/jsrf_first_fault/adx_guard.c:840-842 | in every run whose waits end with the calls made inside them finished, every note reads 0, or -1 exactly when another thread is then in flight |
| `AdxRuns.LeakFalseAlarm` | diagnostics/jsrf_first_fault/adx_guard.c:840-842 | the test does fire with nothing lost: from rest, a refused unlock is noted while another thread has taken the guard and not yet counted its lock, and reads -1 |
| `AdxRuns.WholeWait` | diagnostics/jsrf_first_fault/adx_guard.c:243-299 | a whole wait of a holder, whatever other threads do meanwhile: the guard is free when it begins, and once it is free again the holder has its exact nesting back, nothing is lost and no guarded word has changed |
| `AdxAccounts.CountNeverNegative` | diagnostics/jsrf_first_fault/jsrf_manual_overrides.c:321-340 | with the safe unlock on, no interleaving takes the refcount below 0 |
| `AdxAccounts.DriftIsExact` | diagnostics/jsrf_first_fault/adx_guard.c:523-559 | outside bodies the ledger's sum equals the refcount plus the unlocks it did not match that were applied, less those it matched that were clamped |
| `AdxPriority.PoisonedExactlyWhenLate` | diagnostics/jsrf_first_fault/jsrf_manual_overrides.c:199-255 | for any schedule, waits and unmatched unlocks included, a lock saves the elevated value if and only if some lock that took the guard at count 0 while its thread was still owed a restore went on to save |
| `AdxPriority.AgreementWhileNotLate` | diagnostics/jsrf_first_fault/adx_guard.c:561-580 | until that happens, outside bodies a raised thread is owed its own priority or is the raiser of a positive count, the slot holds the raiser's own saved priority, and that is never the elevated one |
| `AdxPriority.NeverPoisonedInOneStep` | diagnostics/jsrf_first_fault/jsrf_manual_overrides.c:199-255 | if what is owed is collected in the step that takes the guard, no schedule ever makes a lock save the elevated value, and outside bodies slot, raiser, ledger and priorities always agree as above |
| `AdxPriority.StepKeepsPrio` | diagnostics/jsrf_first_fault/jsrf_manual_overrides.c:299-367 | every single step of every routine keeps the agreement of slot, raiser, ledger and priorities, unless it is the first elevated save and a late one |
| `AdxPriority.OtherKeepsPrio` | diagnostics/jsrf_first_fault/adx_guard.c:561-580 | and so does every step of another thread, the one that makes a raiser owed included |
| `AdxOwnPriority.OwnPriorityKept` | diagnostics/jsrf_first_fault/jsrf_manual_overrides.c:351-360 | priority conservation: in any run with no late save, waits, unmatched unlocks and restores across threads included, every priority a thread has, has saved or is owed is the one it started with, or the elevated one; one that is not owed, not the raiser and not in the middle of a raise is at the one it started with; and the slot holds the raiser's |
| `AdxOwnPriority.CollectsAtNextCall` | diagnostics/jsrf_first_fault/jsrf_manual_overrides.c:201-215 | what a thread is owed it has again after its next whole lock or unlock: nothing is owed any more, and unless it is then the raiser it is at the priority it started with |
| `AdxOwnPriority.OwnPriorityInOneStep` | diagnostics/jsrf_first_fault/jsrf_manual_overrides.c:201-223 | with collection in the step that takes the guard, conservation holds in every run |
| `AdxOwnPriority.OwnPriorityWithoutWaits` | diagnostics/jsrf_first_fault/jsrf_manual_overrides.c:201-223 | and, with the code as it is, in every run with no blocking wait |
| `AdxRuns.SplitCollectionCanPoison` | diagnostics/jsrf_first_fault/jsrf_manual_overrides.c:217-223 | the order of collection and acquisition as written leaves one window: from any two base priorities there is a schedule in which a lock saves the elevated value, with both fixes on |
| `AdxRuns.SharedSlotPoisons` | diagnostics/jsrf_first_fault/adx_guard.h:152-170 | without the per-thread restore, the recorded interleaving of two threads, one of them blocked inside, leaves 15 in the slot and the raiser's priority on the wrong thread |
| `AdxRuns.LateTakeSaves` | diagnostics/jsrf_first_fault/jsrf_manual_overrides.c:217-255 | a lock that takes the guard late saves the elevated value within five steps |
| `AdxNoWaits.ExactWithoutWaits` | diagnostics/jsrf_first_fault/adx_guard.c:106-181 | in a run with no blocking wait, with any unmatched unlocks, outside bodies the refcount, the ledger's sum and the owner's nesting less its region levels are one number, the raiser of a positive count is the owner, and nobody is owed |
| `AdxNoWaits.NobodyOwedWithoutWaits` | diagnostics/jsrf_first_fault/adx_guard.c:561-580 | in such a run the count reaches zero on the raiser only, so no restore ever crosses threads |
| `AdxNoWaits.ExactAlways` | diagnostics/jsrf_first_fault/adx_guard.c:523-580 | the same agreement at every step, inside bodies too |
| `AdxNoWaits.NeverPoisonedWithoutWaits` | diagnostics/jsrf_first_fault/jsrf_manual_overrides.c:217-223 | and so the window of the split collection opens through a blocking wait only: with none, the code as written never saves the elevated value, and outside bodies everything agrees |
| `AdxOuterWord.OuterWordDecidesCount` | diagnostics/jsrf_first_fault/jsrf_manual_overrides.c:274-297 | with the region switch on, and only balanced calls of the two outer-word bodies, every interleaving, threads parked anywhere included, keeps the word equal to enters less leaves, overall and summed over threads, never refuses the inner unlock, and keeps the refcount 1 exactly while the word is positive whenever no thread is between what its outer-word body read and what it makes of it, whoever is queued, parked or waking |
| `AdxOuterWord.NotNestedIsOutside` | diagnostics/jsrf_first_fault/jsrf_manual_overrides.c:274-297 | a thread outside both outer-word bodies is never in between |
| `AdxOuterWord.StepKeepsWord` | diagnostics/jsrf_first_fault/adx_guard.c:309-324 | every step moves the word with its own thread's balance and keeps what the thread inside sees of word and refcount |
| `AdxLevels.LevelsAreCounted` | diagnostics/jsrf_first_fault/adx_guard.c:55-62 | for any schedule of any traffic, outside bodies: guard levels held or parked beyond the region levels, plus those lost to waits, are the refcount plus the unlocks that were let in without a level of their own, less the unlocks that found the count at 0 |
| `AdxLevels.GuardUnderTheWord` | diagnostics/jsrf_first_fault/adx_guard.h:302-312 | with the region switch on and balanced outer-word calls only, between calls: levels held, parked or lost are one for a positive word plus one for every last leave whose thread had no level of its own; so with the word 0 and nothing lost the guard is given up entirely if and only if there was no such leave |
| `AdxOuterRace.GuardOutlivesWord` | diagnostics/jsrf_first_fault/adx_guard.h:302-312 | and there can be: from rest, two of any number of threads, with waits between balanced calls, can reach a state in which everyone is out, word and refcount are 0, nothing is lost and the leak test reads 0, and yet one thread owns the guard, is raised and owed, and the other one's next enter must wait |
| `AdxOuterRace.UnguardedWordBreaks` | diagnostics/jsrf_first_fault/adx_guard.h:288-302 | with the region switch off, balanced calls of two of any number of threads can reach a state in which all are in their own code, the word says one is inside, and no lock is held |
| `AdxCalls.LockRuns` | diagnostics/jsrf_first_fault/jsrf_manual_overrides.c:217-255 | left alone, the steps of a lock, nine at most, compute one function of what can be observed: collect, take, save and raise at count 0, count |
| `AdxCalls.UnlockRuns` | diagnostics/jsrf_first_fault/jsrf_manual_overrides.c:299-367 | left alone, the steps of an unlock compute one function: collect; be matched, let in or refused; clamp and rescue, or decrement and end the raise here or owed |
| `AdxCalls.LockInRun` | diagnostics/jsrf_first_fault/jsrf_manual_overrides.c:217-255 | as part of a run a whole lock has exactly that effect and no other thread changes |
| `AdxCalls.UnlockInRun` | diagnostics/jsrf_first_fault/jsrf_manual_overrides.c:299-367 | as part of a run a whole unlock has exactly that effect, and the only other thread it changes is the one it leaves owed |
| `AdxCalls.LockThenUnlock` | diagnostics/jsrf_first_fault/jsrf_manual_overrides.c:217-367 | a lock followed by its unlock puts depth, guard, refcount, held locks and priority back where they were once the thread had collected what it was owed |
| `AdxCalls.UnmatchedAtZeroRescues` | diagnostics/jsrf_first_fault/jsrf_manual_overrides.c:322-341 | an unmatched unlock let in at count 0 changes nothing but, on a thread that reads elevated, its priority: to what it saved, or to 0 if it never saved |
| `AdxAtomic.LockIsAtomic` | diagnostics/jsrf_first_fault/jsrf_manual_overrides.c:217-255 | under any schedule, whatever moves of other threads lie between its own: from the step that takes the guard to the end of its body a lock computes what a whole lock does to the view it had when it took the guard |
| `AdxAtomic.UnlockIsAtomic` | diagnostics/jsrf_first_fault/jsrf_manual_overrides.c:299-367 | likewise an unlock, from the step that lets it in to its leave |
| `AdxAtomic.BodyKeepsPace` | diagnostics/jsrf_first_fault/adx_guard.h:24-28 | at every point of such a schedule the body is where its own undisturbed run would be after as many steps, and every word of the guard and every word it protects with it |
| `AdxOuterCalls.EnterRuns` | diagnostics/jsrf_first_fault/jsrf_manual_overrides.c:274-284 | left alone, the steps of sub_0013C460 compute one function of what can be observed, region level or not: lock at word 0, and count |
| `AdxOuterCalls.LeaveRuns` | diagnostics/jsrf_first_fault/jsrf_manual_overrides.c:286-297 | likewise sub_0013C480: count down, and unlock at 0, admission included |
| `AdxOuterCalls.EnterInRun` | diagnostics/jsrf_first_fault/jsrf_manual_overrides.c:274-284 | as part of a run a whole enter has exactly that effect and no other thread changes |
| `AdxOuterCalls.LeaveInRun` | diagnostics/jsrf_first_fault/jsrf_manual_overrides.c:286-297 | as part of a run a whole leave has exactly that effect, and the only other thread it changes is the one it leaves owed |
| `AdxSpin.SpinEndsExactly` | diagnostics/jsrf_first_fault/jsrf_manual_overrides.c:321-340 | the drop-all loop of a thread the guard lets in ends if and only if its saved priority, what it is owed, or the slot that will be written to it is not the elevated value |
| `AdxSpin.SpinExits` | diagnostics/jsrf_first_fault/jsrf_manual_overrides.c:299-367 | when it ends it does so within one pass more than the larger of the refcount and the thread's own held locks |
| `AdxSpin.SpinStuck` | diagnostics/jsrf_first_fault/adx_guard.h:54-64 | and otherwise no number of passes ever lowers the thread |
| `AdxSpin.SpinExitsAmongOthers` | diagnostics/jsrf_first_fault/jsrf_manual_overrides.c:299-367 | with other threads moving between the passes in any way, refusing passes and taking the refcount up included: a thread whose own saved priority is not the elevated one is through within the same bound, plus one pass for each refused and one for each count added by others meanwhile |
| `AdxWedge.SpinForeverIsReachable` | diagnostics/jsrf_first_fault/jsrf_manual_overrides.c:217-223 | such a thread is reachable: with both fixes on, from any two base priorities, some run leaves one in its own code, elevated, with 15 saved and in the slot, and no number of passes ever lowers it |
| `AdxWedge.SpinEndsUnlessLate` | diagnostics/jsrf_first_fault/jsrf_manual_overrides.c:321-340 | in any run of any number of threads with both fixes on and no late save, every thread in its own code that the guard lets in has a low saved priority and leaves the loop within the bound: only a late lock can make it spin for ever |
| `AdxRuntime.Runtime.Acquire` | diagnostics/jsrf_first_fault/adx_guard.c:106-181 | one level more for the thread, the owner and the sums with it, and no other thread's words |
| `AdxRuntime.Runtime.TryAcquire` | diagnostics/jsrf_first_fault/adx_guard.c:186-215 | succeeds exactly when the guard is free or the thread's own, and otherwise changes nothing |
| `AdxRuntime.Runtime.Release` | diagnostics/jsrf_first_fault/adx_guard.c:218-237 | one level fewer, the guard freed at the last; with no level held only the region count moves |
| `AdxRuntime.Runtime.BlockBegin` | diagnostics/jsrf_first_fault/adx_guard.c:243-267 | a holder parks its whole nesting and frees the guard |
| `AdxRuntime.Runtime.BlockEnd` | diagnostics/jsrf_first_fault/adx_guard.c:269-299 | the parked nesting is back and what it overwrites is counted as lost |
| `AdxRuntime.WaitRuns` | diagnostics/jsrf_first_fault/adx_guard.c:243-299 | the two wait hooks compute exactly the steps of the interleaved model |
| `AdxRuntime.Runtime.UnlockEnter` | diagnostics/jsrf_first_fault/adx_guard.c:335-369 | negative exactly when the thread has no level above its region levels and another thread is inside |
| `AdxRuntime.Runtime.NoteLock` | diagnostics/jsrf_first_fault/adx_guard.c:523-539 | one more held lock, and the raise recorded |
| `AdxRuntime.Runtime.NoteUnlock` | diagnostics/jsrf_first_fault/adx_guard.c:541-559 | matched exactly when the thread holds a lock, and then one fewer |
| `AdxRuntime.Runtime.RestoreHere` | diagnostics/jsrf_first_fault/adx_guard.c:561-580 | the raise is over; the raiser, if another thread, is owed its saved priority |
| `AdxRuntime.Runtime.PayOwed` | diagnostics/jsrf_first_fault/jsrf_manual_overrides.c:201-215 | what is owed is collected once, on the thread it is owed to |
| `AdxRuntime.Runtime.Lock` | diagnostics/jsrf_first_fault/jsrf_manual_overrides.c:217-255 | the C body computes the whole-call function of a lock and touches no other thread |
| `AdxRuntime.Runtime.Unlock` | diagnostics/jsrf_first_fault/jsrf_manual_overrides.c:299-367 | the C body computes the whole-call function of an unlock, and touches no other thread but the one it leaves owed |
| `AdxRuntime.Runtime.OuterEnter` | diagnostics/jsrf_first_fault/jsrf_manual_overrides.c:274-284 | the body computes what it would without the region level: the level leaves no trace |
| `AdxRuntime.Runtime.OuterLeave` | diagnostics/jsrf_first_fault/jsrf_manual_overrides.c:286-297 | likewise, the inner unlock's admission included |
| `AdxOuterCalls.RegionHidesNoUnlock` | diagnostics/jsrf_first_fault/adx_guard.c:346-354 | a region level changes neither whether an unlock is matched nor what it does |
| `AdxRuntime.Runtime.DropAll` | diagnostics/jsrf_first_fault/jsrf_manual_overrides.c:321-340 | the loop leaves the thread's priority lowered, in the state its number of passes gives, within the bound |
| `RecoveryClosure.AttemptExactly` | diagnostics/jsrf_first_fault/recover_midfunction_entries.py:132-152 | an entry gets a body with given references if and only if it begins an instruction of the last function that starts at or before it, when that one properly contains it, and its code up to where translation stops is complete, returns and jumps nowhere outside; and it is refused for a reason if and only if that is the first of the five that applies |
| `RecoveryClosure.AnswerExplained` | diagnostics/jsrf_first_fault/recover_midfunction_entries.py:132-167 | what translate answers, in terms of detected functions, instruction boundaries and code alone: a body that belongs at the address, or a chain of references down to one with a reason that applies |
| `RecoveryClosure.KeptBodiesAreAccepted` | diagnostics/jsrf_first_fault/recover_midfunction_entries.py:132-167 | every name kept after any run has the body that belongs at its address |
| `RecoveryClosure.TranslateSucceedsExactly` | diagnostics/jsrf_first_fault/recover_midfunction_entries.py:132-167 | on any reference graph, cycles included, translate succeeds if and only if no chain of undeclared, unclaimed references from the entry ends at one the generator refuses; and then every name it added has its own body with every reference declared or in extra, and nothing it found is changed |
| `RecoveryClosure.AddsExactlyLinked` | diagnostics/jsrf_first_fault/recover_midfunction_entries.py:154-165 | a successful call adds exactly the names that undeclared, unclaimed references lead to |
| `RecoveryClosure.Translate` | diagnostics/jsrf_first_fault/recover_midfunction_entries.py:132-167 | the recursion ends on every graph: each nested call claims a new name, and no call removes a name it found |
| `RecoveryClosure.RunLinksExactly` | diagnostics/jsrf_first_fault/recover_midfunction_entries.py:132-167 | after any sequence of successful and failed calls, every reference in extra links if and only if no entry asked for has a chain of references, each one tried while those before it are under way, to one that reaches a refused entry only through those: a condition on the graph and the entries alone |
| `RecoveryClosure.RunClosedExactly` | diagnostics/jsrf_first_fault/recover_midfunction_entries.py:132-167 | and that is so if and only if no name kept reaches a refused entry |
| `RecoveryClosure.TranslateSlips` | diagnostics/jsrf_first_fault/recover_midfunction_entries.py:132-167 | one call, made with any names under way, leaves a body that will dangle if and only if its entry has such a chain |
| `RecoveryClosure.SuccessfulRunIsClosed` | diagnostics/jsrf_first_fault/recover_midfunction_entries.py:132-167 | if every call succeeds, every reference in extra links |
| `RecoveryClosure.RunWithoutDoomedCyclesIsClosed` | diagnostics/jsrf_first_fault/recover_midfunction_entries.py:132-167 | if no cycle of undeclared references goes through entries that reach a refused one, every reference links whichever calls fail, whatever cycles there are among the rest |
| `RecoveryClosure.LoopIsExcluded` | diagnostics/jsrf_first_fault/recover_midfunction_entries.py:160-163 | the graph of the next row has such a cycle |
| `RecoveryClosure.CycleLeavesDangling` | diagnostics/jsrf_first_fault/recover_midfunction_entries.py:160-163 | a four-entry graph on which a failed call keeps a body that calls a retracted name |
| `RecoveryClosure.RefusedFirstNeverDangles` | diagnostics/jsrf_first_fault/recover_midfunction_entries.py:154-165 | with the same four entries and the same cycle, but the refused reference first, no run leaves anything dangling: the order of the references decides |
| `RecoveryClosure.BoundsMeaning` | diagnostics/jsrf_first_fault/recover_midfunction_entries.py:122-130 | the bound is the end of the last function that starts at or before the address, if that one properly contains it, overlapping functions or not; or the next start with nothing between, or none past the last; without overlap that is the one function, if any, that contains the address |
| `RecoveryClosure.EntryRecovery.Run` | diagnostics/jsrf_first_fault/recover_midfunction_entries.py:132-167 | the loop that claims, recurses and writes or retracts names one after another computes translate |
| `RecoveryClosure.EntryRecovery.Recover` | diagnostics/jsrf_first_fault/recover_midfunction_entries.py:132-167 | and so succeeds and grows extra exactly as stated above |
| `RecoveryClosure.RecoverSwitchArms` | diagnostics/jsrf_first_fault/recover_midfunction_entries.py:205-270 | the arms handled are exactly those some round's scan found, each recovered or skipped, once and not both; a recovered one has its own linked body or already had one; a skipped one reaches a refused entry, for the reason given; on convergence the scan of the tree that is left finds nothing else |
| `RecoveryClosure.RecoverArm` | diagnostics/jsrf_first_fault/recover_midfunction_entries.py:253-264 | one arm: only a row if it has a body already, else its own body or the reason for none, and exactly what translate leaves in extra |
| `RecoveryClosure.DefinedTwiceExactly` | diagnostics/jsrf_first_fault/recover_midfunction_entries.py:253-264 | a recovered arm ends up with a second body in extra if and only if undeclared, unclaimed references lead from it back to itself |
| `RecoveryClosure.ArmDefinedTwice` | diagnostics/jsrf_first_fault/recover_midfunction_entries.py:253-264 | which two entries that refer to each other do |
| `DarkSpecks.FourCorners` | diagnostics/jsrf_first_fault/fb_score.py:249-260 | the four-corner prefix-sum formula equals the direct sum of every box |
| `DarkSpecks.SummedArea` | diagnostics/jsrf_first_fault/fb_score.py:249-255 | every cell of the table holds the sum of the box from the corner to it |
| `DarkSpecks.DarkPixels` | diagnostics/jsrf_first_fault/fb_score.py:256-261 | a pixel is dark exactly when its clipped-box mean exceeds it by more than drop |
| `DarkSpecks.MeanOfWindow` | diagnostics/jsrf_first_fault/fb_score.py:256-260 | the mean is that of the bytes of exactly the pixels of the frame at most radius rows and columns away |
| `DarkSpecks.DarkMeans` | diagnostics/jsrf_first_fault/fb_score.py:247-261 | dark, told in the frame's bytes: the window's total exceeds that of as many pixels like this one by more than three times drop for each |
| `DarkSpecks.FloodFill` | diagnostics/jsrf_first_fault/fb_score.py:268-274 | a fill pops exactly the maximal 4-connected component of its start, each pixel once, and leaves what earlier fills saw |
| `DarkSpecks.ComponentShared` | diagnostics/jsrf_first_fault/fb_score.py:268-274 | every pixel of a component has that same component |
| `DarkSpecks.FindSpecks` | diagnostics/jsrf_first_fault/fb_score.py:235-277 | the result is the sizes, at most maxpix, of the maximal 4-connected components of the dark pixels, each component once |
| `MissedEvents.GreedyIsMaximum` | diagnostics/jsrf_first_fault/ab_score.py:251-260 | no injective assignment of fires to events within the tolerance matches more events than the greedy scan |
| `MissedEvents.GreedyIsValid` | diagnostics/jsrf_first_fault/ab_score.py:251-260 | the scan's own assignment is injective and within the tolerance |
| `MissedEvents.Exchange` | diagnostics/jsrf_first_fault/ab_score.py:254-258 | giving a fire to the first event it is near costs any assignment at most one event |
| `MissedEvents.Scan` | diagnostics/jsrf_first_fault/ab_score.py:251-260 | the loop's list of unfired events is what the greedy assignment leaves out, and no valid assignment leaves out fewer |
| `MissedEvents.UnmatchedExactly` | diagnostics/jsrf_first_fault/ab_score.py:251-260 | the list of unfired events is exactly those without a fire, each once and in order |
| `MissedEvents.Missed` | diagnostics/jsrf_first_fault/ab_score.py:237-267 | the reported gap is the first longest between consecutive fires that contains an unfired event, with the number of distinct unfired events in it; or nothing |
| `Dispatch.RegisterKeepsOrder` | diagnostics/jsrf_first_fault/switch_arm_entries.py:160-223 | from distinct addresses, whenever a row is added the table is strictly sorted, the size literal is the row count, the span covers every address and is widened no further than to a row, and the rows are the old ones and the added ones |
| `Dispatch.RegisterAddsWhatIsMissing` | diagnostics/jsrf_first_fault/switch_arm_entries.py:191-200 | only entries are added, only for addresses without a row, each once, and afterwards every entry's address has one |
| `Dispatch.RegisterAddsTheLeast` | diagnostics/jsrf_first_fault/switch_arm_entries.py:194-200 | of several entries for one address the first in the order of names is added, and what is added is listed by address |
| `Dispatch.RegisterIsStable` | diagnostics/jsrf_first_fault/switch_arm_entries.py:205-205 | rows that share an address, in a table that has any, keep their order |
| `Dispatch.NameBeforeMeans` | diagnostics/jsrf_first_fault/switch_arm_entries.py:194-194 | names compare by their first difference |
| `Dispatch.RefusesExactly` | diagnostics/jsrf_first_fault/switch_arm_entries.py:183-210 | it fails if and only if there is no table, or a line that is not a row, and it names the first, or something to add and no size literal; and with nothing to add it returns the unit as it was |
| `Dispatch.RegisterTwice` | diagnostics/jsrf_first_fault/switch_arm_entries.py:180-183 | registering the same entries again changes nothing and adds nothing |
| `Dispatch.OldRowsUnchanged` | diagnostics/jsrf_first_fault/switch_arm_entries.py:180-183 | every address that resolved resolves as before, every added one to its own routine, and no other address resolves |
| `Dispatch.RegisterDispatch` | diagnostics/jsrf_first_fault/switch_arm_entries.py:160-223 | the editor, with its refusals, is the function these are about |
| `Dispatch.BinarySearch` | diagnostics/jsrf_first_fault/guest_names.c:83-93 | a binary search over the counted rows answers what the plain map answers, for every address |
| `Dispatch.BuildFlat` | diagnostics/jsrf_first_fault/switch_arm_entries.py:172-179 | the flat table built from the rows never writes outside its span and holds the map's answer in every cell |
| `Dispatch.LookupsAgree` | diagnostics/jsrf_first_fault/switch_arm_entries.py:172-179 | on a unit that keeps the invariants, binary search, flat table and map agree on every address |
| `HitTable.Probe.Hit` | diagnostics/jsrf_first_fault/func_hit_probe.c:118-151 | the entry is counted and the alarm rings at exactly the armed entry; the table keeps the probing invariant |
| `HitTable.Probe.HitCount` | diagnostics/jsrf_first_fault/func_hit_probe.c:167-178 | the answer is the number of past entries of the site, 0 for one never entered |
| `HitTable.Probe.Report` | diagnostics/jsrf_first_fault/func_hit_probe.c:390-393 | the report of the table lists every site entered, once, with its number of entries |
| `HitTable.Probe.Find` | diagnostics/jsrf_first_fault/func_hit_probe.c:138-150 | with at most 1024 distinct sites the probe ends at the site's slot or the first empty one |
| `HitTable.ProbeEndsExactly` | diagnostics/jsrf_first_fault/func_hit_probe.c:138-150 | the unbounded probe ends if and only if there are at most 1024 distinct sites |
| `HitTable.HitFirst` | diagnostics/jsrf_first_fault/func_hit_probe.c:144-148 | a first entry put in the first empty slot keeps every other site findable |
| `HitTable.AlarmNext` | diagnostics/jsrf_first_fault/func_hit_probe.c:105-116 | an alarm armed before its entry rings once, at that entry; one armed after it never rings |
| `HitTable.Ring.Record` | diagnostics/jsrf_first_fault/func_hit_probe.c:133-136 | the ring holds the last 1024 sites in order, and the first one entered |
| `HitTable.Ring.Report` | diagnostics/jsrf_first_fault/func_hit_probe.c:400-412 | the report of a thread lists its first site and its last 1024 entries in call order |
| `SoundHeap.LiveIsDisjoint` | diagnostics/jsrf_first_fault/dsound_lift.c:71-110 | in every reachable state live handles are disjoint, the memory of live buffers is disjoint from each other's and from every live handle, a buffer's own included, free blocks are disjoint from each other and from all of those, and nothing on a free list is live |
| `SoundHeap.WrappedSizeOverlaps` | diagnostics/jsrf_first_fault/dsound_lift.c:100-100 | beyond 0xFFFFF000 disjointness does fail: a run of two calls in which the memory one buffer claims contains the other one's handle |
| `SoundHeap.Lift.CreateSoundBuffer` | diagnostics/jsrf_first_fault/dsound_lift.c:200-211 | for every 32-bit size, a new handle that was not live, with one reference and its own memory of the size asked, or none, and no other buffer changes; everything stays disjoint unless the size is one whose rounding wraps |
| `SoundHeap.Lift.Release` | diagnostics/jsrf_first_fault/dsound_lift.c:389-404 | the buffer is gone exactly when its count reaches 0; anything not live is refused, a repeated release included |
| `SoundHeap.Lift.Retire` | diagnostics/jsrf_first_fault/dsound_lift.c:393-402 | its memory and handle go to the free lists, or are dropped when those are full |
| `SoundHeap.Lift.AddRef` | diagnostics/jsrf_first_fault/dsound_lift.c:388-388 | one reference more, for live buffers only |
| `SoundHeap.Lift.SetBufferData` | diagnostics/jsrf_first_fault/dsound_lift.c:407-414 | what is mixed changes and what is owned does not |
| `SoundHeap.Lift.OwnedAlloc` | diagnostics/jsrf_first_fault/dsound_lift.c:93-103 | a free block is reused only for exactly its size; otherwise the guest's allocator is asked, and what it gives is spare and covers the buffer unless the rounding wraps |
| `SoundHeap.Lift.HandleAlloc` | diagnostics/jsrf_first_fault/dsound_lift.c:71-89 | 0 only when the free list and pool are empty and no pool can be had; never a live handle |
| `SoundHeap.RoundedCovers` | diagnostics/jsrf_first_fault/dsound_lift.c:100-100 | the request, rounded up to whole pages, covers the buffer if and only if the size is at most 0xFFFFF000, and is for no bytes otherwise |
| `SoundHeap.LockIsCircular` | diagnostics/jsrf_first_fault/dsound_lift.c:421-431 | the two stretches of a lock are the bytes asked for, up to the whole buffer, in circular order from the offset |
| `SoundHeap.LockGivesOnce` | diagnostics/jsrf_first_fault/dsound_lift.c:421-431 | no byte is given twice and every one is inside the buffer |
| `SoundHeap.LockOfNothing` | diagnostics/jsrf_first_fault/dsound_lift.c:421-431 | a buffer with no size or no memory gives nothing, and otherwise only a request for nothing does |
| `VertexAssembly.BadExactly` | diagnostics/jsrf_first_fault/d3d8_mirror.c:196-211 | between Begin and End the draw is bad exactly for an invalid register, an attribute first set after a vertex, or more than 256 vertices |
| `VertexAssembly.NotBadAssembles` | diagnostics/jsrf_first_fault/d3d8_mirror.c:176-187 | a draw that is not bad has one vertex for each position write, and in each vertex every emitted attribute has its latest value since Begin and no later than that position write |
| `VertexAssembly.SetBeforeFirst` | diagnostics/jsrf_first_fault/d3d8_mirror.c:204-204 | every emitted attribute was set before the first vertex |
| `VertexAssembly.Mirror.Data` | diagnostics/jsrf_first_fault/d3d8_mirror.c:196-211 | one call keeps current values, vertices, emitted attributes and the bad flag what the calls so far make them |
| `VertexAssembly.Mirror.Streams` | diagnostics/jsrf_first_fault/d3d8_mirror.c:218-236 | the draw is handed over, as stated, exactly when it is not bad and has a vertex; its attributes are those written since Begin up to the last vertex |
| `VertexAssembly.VertexInRegisters` | diagnostics/jsrf_first_fault/d3d8_mirror.c:196-211 | told from the registers: in each vertex drawn every attribute has the four words, two filled up with 0.0 and 1.0, of the last call up to the position write that wrote it, register -1 being the position too |
| `VertexAssembly.AttributesInRegisters` | diagnostics/jsrf_first_fault/d3d8_mirror.c:196-211 | and the attributes drawn are those some call up to the last position write wrote |
| `VertexAssembly.BadInRegisters` | diagnostics/jsrf_first_fault/d3d8_mirror.c:196-211 | and what is refused is a call that writes no attribute, or one not written before, after a position write; or more than 256 position writes |
| `VertexAssembly.PositionsInRegisters` | diagnostics/jsrf_first_fault/d3d8_mirror.c:201-201 | and the position writes are the calls of register 0 and of register -1 |
| `VertexAssembly.CurrentIsLatest` | diagnostics/jsrf_first_fault/d3d8_mirror.c:203-203 | a slot's current value is its latest write |
| `DrawPacket.BatchesDrawTheRange` | diagnostics/jsrf_first_fault/draw_vertices_lift.h:34-44 | the batch words of an accepted request draw exactly start to start + count - 1 in order; no word overflows and no index spills past 24 bits |
| `DrawPacket.HeaderHoldsCount` | diagnostics/jsrf_first_fault/draw_vertices_lift.h:23-33 | the header's count field is the number of batch words, which fits its 11 bits, and its other bits are untouched |
| `DrawPacket.PacketDecodes` | src/nv2a/nv2a_pb_replay.c:133-180 | decoded as the pusher decodes it, the packet is Begin with the primitive, DRAW_ARRAYS with the batches, whose indices are exactly those requested, and End |
| `DrawPacket.AcceptedExactly` | diagnostics/jsrf_first_fault/draw_vertices_lift.h:55-73 | a request is lifted exactly when it draws something, in at most 256 batches, and every index fits 24 bits |
| `DrawPacket.OrBelow` | diagnostics/jsrf_first_fault/draw_vertices_lift.h:37-44 | the bitwise or of a batch word is a sum, because the index stays below 24 bits |
| `DrawPacket.Emit` | diagnostics/jsrf_first_fault/draw_vertices_lift.h:22-51 | the ring is as it was with exactly the packet, as many words as were reserved, written over it |
| `Coverage.CoverageBytes` | diagnostics/jsrf_first_fault/control_flow_gate.py:356-368 | for any nonempty list of forward intervals, overlapping, nested or repeated, the total is the number of distinct addresses in their union |
| `Coverage.CoveredMeans` | diagnostics/jsrf_first_fault/control_flow_gate.py:356-368 | an address is in that union exactly when some interval contains it |
| `Coverage.SortKeeps` | diagnostics/jsrf_first_fault/control_flow_gate.py:358-358 | sorting changes neither the union nor the intervals |

## Left out

- Guard stealing, condition-variable timeouts, stall printing and wall-clock time: waiting is a disabled step.
- Statistics that nothing reads back (contended, skipped, unmatched, clamps, rescues) and the trace ring, its dumps and reports, apart from the leak number.
- Threads beyond 64 and the untracked records they would get; ids are handed out in thread order rather than on first use.
- 32-bit wrap-around of the refcount, the outer word, reference counts and hit counts: these are unbounded integers here.
- XAPI priority, suspend and resume calls: one priority word per thread, read and written; suspending nothing.
- The guest register file and stack around the two routines.
- AdxOuterWord.OuterWordDecidesCount: is about the word and the refcount; the guard's levels are AdxLevels.GuardUnderTheWord.
- AdxSpin.SpinEndsExactly: the spinning thread runs alone; with other threads about, AdxSpin.SpinExitsAmongOthers bounds the loop of a thread whose own saved priority is low.
- RecoveryClosure.RunWithoutDoomedCyclesIsClosed: one-way, a corollary of RunLinksExactly that does not look at the order of the references.
- AdxPriority.NeverPoisonedInOneStep: is about collection and acquisition as one step; the code as written is covered by PoisonedExactlyWhenLate.
- x86 decoding and C generation: a fixed function from an address and an end to code with a reference list. Regular expressions over generated C: rows, names and absence of a part.
- RecoveryClosure.RecoverSwitchArms: selection is a fixed function of the tree; an arm may end up with a second body in extra (DefinedTwiceExactly).
- The arm phase's file writes and backups, the header text, and `manual_definitions`.
- In the dispatch editor, recomp_lookup itself is generated code that is not part of this model beyond the two lookups its documentation describes.
- Floating-point rounding in the speck detector; sums are exact reals.
- Parsing and rounding of the pad schedule for the event matching; times are whole hundredths, already sorted and without repeats.
- Several threads racing on the hit table, the bounded slots for per-thread rings, and the argument and pair tables.
- The DirectSound object's own reference count, effects images, mixing and cursors; a guest address that was never a handle is taken not to hold the buffer's magic word.
- SoundHeap.Lift.CreateSoundBuffer: promises no disjointness for sizes above 0xFFFFF000 that the guest's allocator answers, because the rounded request is then for no bytes (RoundedCovers) and it fails (WrappedSizeOverlaps).
- SoundHeap.Lift.OwnedAlloc: the same.
- For immediate-mode drawing, the switches that keep Begin from starting an assembly, the host's stream reservation, array formats and offsets; other draw kinds.
- The validation and reservation calls before the DrawVertices packet, and the register and stack traffic.
- Intervals that end before they start, in the coverage count.
- Probes, log scrapers, scoring other than the two functions named, A/B drivers, staging and backport scripts, and image decoding.
