/** The lock as the source writes it: one object with the static and thread-local words of
    `adx_guard.c` and the guest words, and one method for each C function, proved against
    the whole-call functions of `AdxCalls`.

    A call here is one that no other thread interleaves with; `AdxCalls` proves that such a
    call is a run of the interleaved model. `t` is the calling thread, which holds guard id
    `t + 1` and ledger record `t`. Waiting for the guard is a precondition. */
module AdxRuntime {
  import opened AdxModel
  import opened AdxCalls
  import opened AdxOuterCalls
  import opened AdxSpin

  /** The `__thread` words of one thread, and its own priority. */
  datatype Local = Local(depth: nat, region: nat, inWait: bool, parked: nat, prio: int)

  /** What block_begin makes of a thread: a holder parks its whole nesting. */
  function Parked(v: Seen, t: nat): Seen {
    if v.depth > 0 && v.g.owner == t + 1
    then v.(inWait := true, parked := v.depth, depth := 0,
            g := v.g.(owner := 0, depth := 0, tsum := v.g.tsum - v.depth, parked := v.g.parked + v.depth))
    else v.(inWait := true, parked := 0)
  }

  /** What block_end makes of it: the parked nesting is back, and replaces what is there. */
  function Unparked(v: Seen, t: nat): Seen {
    if v.parked == 0 then v.(inWait := false)
    else
      v.(inWait := false, parked := 0, depth := v.parked,
         g := v.g.(owner := t + 1, depth := v.parked,
                   tsum := v.g.tsum - v.depth + v.parked,
                   parked := v.g.parked - v.parked,
                   lost := v.g.lost + v.depth))
  }

  /** The two halves of a wait are the interleaved model's steps, run one after another. */
  lemma WaitRuns(cfg: Switches, e: Effect, t: nat)
    requires CanCall(cfg, e, t)
    ensures Enabled(cfg, e, t, Block) ==> See(CallStep(e, t, Block)) == Parked(See(e), t)
    ensures Enabled(cfg, e, t, Wake) && (e.me.parked > 0 ==> CanTake(e.g, t)) ==>
              var e' := RunFor(cfg, CallStep(e, t, Wake), t, 2);
              e'.me.pc == Idle && See(e') == Unparked(See(e), t)
  {
    if Enabled(cfg, e, t, Wake) && (e.me.parked > 0 ==> CanTake(e.g, t)) {
      var e1 := CallStep(e, t, Wake);
      if e.me.parked > 0 {
        var e2 := WakeStep(e1, t);
        assert RunFor(cfg, e1, t, 2) == RunFor(cfg, e2, t, 1);
        var e3 := WakeStep(e2, t);
        assert RunFor(cfg, e2, t, 1) == RunFor(cfg, e3, t, 0);
      } else {
        assert RunFor(cfg, e1, t, 2) == e1;
      }
    }
  }

  class Runtime {
    const cfg: Switches

    // adx_guard.c, under g_m
    var owner: nat
    var depth: nat
    var tsum: int
    var parkedSum: int
    var regions: int
    var locks: nat
    var unlocksMatched: nat
    var lost: int

    // adx_guard.c, under g_pm
    const tr: array<Record>
    var raiser: int
    var heldSum: int

    // guest memory
    var count: int
    var slot: int
    var outer: int

    const local: array<Local>

    ghost predicate Valid()
      reads this, tr, local
    {
      && tr.Length == local.Length <= MAX_THREADS
      && tr as object != local as object
      && raiser < tr.Length
      && (owner == 0 <==> depth == 0)
      && owner <= local.Length
      && forall u :: 0 <= u < local.Length ==>
           local[u].depth == if owner == u + 1 then depth else 0
    }

    /** What thread `t` can observe of the whole state. */
    ghost function View(t: nat): Seen
      reads this, tr, local
      requires t < tr.Length == local.Length
    {
      Seen(local[t].depth, local[t].region, local[t].inWait, local[t].parked, local[t].prio, tr[t],
           Guard(owner, depth, tsum, parkedSum, regions, locks, unlocksMatched, lost),
           Words(count, slot, outer, raiser, heldSum),
           NO_RAISER)
    }

    /** Every other thread's own words and record. */
    twostate predicate OthersKept(t: nat)
      reads this, tr, local
    {
      && (forall u :: 0 <= u < local.Length && u != t ==> local[u] == old(local[u]))
      && (forall u :: 0 <= u < tr.Length && u != t ==> tr[u] == old(tr[u]))
    }

    predicate CanEnter(t: nat)
      reads this
    {
      owner == 0 || owner == t + 1
    }

    constructor (cfg: Switches, prios: seq<int>)
      requires |prios| <= MAX_THREADS
      ensures Valid() && fresh(tr) && fresh(local) && local.Length == |prios| && this.cfg == cfg
      ensures owner == 0 && count == 0 && outer == 0 && raiser == NO_RAISER && heldSum == 0
      ensures forall u :: 0 <= u < |prios| ==>
                local[u] == Local(0, 0, false, 0, prios[u]) && tr[u].held == 0 && !tr[u].hasSaved && !tr[u].owed
    {
      this.cfg := cfg;
      owner, depth, tsum, parkedSum, regions := 0, 0, 0, 0, 0;
      locks, unlocksMatched, lost := 0, 0, 0;
      raiser, heldSum := NO_RAISER, 0;
      count, slot, outer := 0, 0, 0;
      tr := new Record[|prios|](_ => Record(0, false, 0, false, 0));
      local := new Local[|prios|](i requires 0 <= i < |prios| => Local(0, 0, false, 0, prios[i]));
    }

    // ------------------------------------------------------------ the guard

    /** guard_acquire_r. */
    method Acquire(t: nat, region: nat)
      requires Valid() && t < local.Length && CanEnter(t)
      modifies this`owner, this`depth, this`tsum, this`regions, local
      ensures Valid() && OthersKept(t)
      ensures var v := Taken(old(View(t)), t); View(t) == v.(g := v.g.(regions := v.g.regions + region))
    {
      if local[t].depth > 0 && owner == t + 1 {
        local[t] := local[t].(depth := local[t].depth + 1);
        tsum := tsum + 1;
        depth := local[t].depth;
      } else {
        owner := t + 1;
        local[t] := local[t].(depth := local[t].depth + 1);
        tsum := tsum + 1;
        depth := local[t].depth;
      }
      regions := regions + region;
    }

    /** guard_try_acquire. */
    method TryAcquire(t: nat) returns (got: bool)
      requires Valid() && t < local.Length
      modifies this`owner, this`depth, this`tsum, local
      ensures Valid() && OthersKept(t)
      ensures got == old(CanEnter(t))
      ensures View(t) == if got then Taken(old(View(t)), t) else old(View(t))
    {
      if local[t].depth > 0 && owner == t + 1 {
        local[t] := local[t].(depth := local[t].depth + 1);
        tsum := tsum + 1;
        depth := local[t].depth;
        got := true;
      } else if owner == 0 {
        owner := t + 1;
        local[t] := local[t].(depth := local[t].depth + 1);
        tsum := tsum + 1;
        depth := local[t].depth;
        got := true;
      } else {
        got := false;
      }
    }

    /** guard_release_r. */
    method Release(t: nat, region: nat)
      requires Valid() && t < local.Length
      modifies this`owner, this`depth, this`tsum, this`regions, local
      ensures Valid() && OthersKept(t)
      ensures var was := old(View(t));
              var v := if was.depth > 0 then Given(was) else was;
              View(t) == v.(g := v.g.(regions := v.g.regions - region))
    {
      regions := regions - region;
      if local[t].depth > 0 {
        local[t] := local[t].(depth := local[t].depth - 1);
        tsum := tsum - 1;
        if owner == t + 1 {
          if depth > 0 {
            depth := depth - 1;
          }
          if depth == 0 {
            owner := 0;
          }
        }
      }
    }

    /** adx_guard_block_begin. */
    method BlockBegin(t: nat)
      requires Valid() && t < local.Length
      modifies this`owner, this`depth, this`tsum, this`parkedSum, local
      ensures Valid() && OthersKept(t) && View(t) == Parked(old(View(t)), t)
    {
      var saved := 0;
      local[t] := local[t].(inWait := true);
      if local[t].depth > 0 && owner == t + 1 {
        saved := local[t].depth;
        tsum := tsum - local[t].depth;
        parkedSum := parkedSum + saved;
        local[t] := local[t].(depth := 0);
        depth := 0;
        owner := 0;
      }
      local[t] := local[t].(parked := saved);
    }

    /** adx_guard_block_end. */
    method BlockEnd(t: nat)
      requires Valid() && t < local.Length
      requires local[t].parked > 0 ==> CanEnter(t)
      modifies this`owner, this`depth, this`tsum, this`regions, this`parkedSum, this`lost, local
      ensures Valid() && OthersKept(t) && View(t) == Unparked(old(View(t)), t)
    {
      var saved := local[t].parked;
      local[t] := local[t].(inWait := false, parked := 0);
      if saved == 0 {
        return;
      }
      Acquire(t, 0);
      var gone := local[t].depth - 1;
      if gone > 0 {
        lost := lost + gone;
      }
      tsum := tsum + saved - local[t].depth;
      parkedSum := parkedSum - saved;
      local[t] := local[t].(depth := saved);
      depth := saved;
    }

    /** adx_guard_unlock_enter: 1 matched, 0 let in, -1 refused. */
    method UnlockEnter(t: nat) returns (admitted: int)
      requires Valid() && t < local.Length
      modifies this`owner, this`depth, this`tsum, this`unlocksMatched, local
      ensures Valid() && OthersKept(t)
      ensures admitted < 0 <==> Refused(old(View(t)), t)
      ensures View(t) == if admitted < 0 then old(View(t)) else Admitted(old(View(t)), t)
      ensures admitted >= 0 ==> local[t].depth > 0
    {
      if local[t].depth > local[t].region {
        unlocksMatched := unlocksMatched + 1;
        return 1;
      }
      var got := TryAcquire(t);
      admitted := if got then 0 else -1;
    }

    // ------------------------------------------------------------ the ledger

    /** adx_prio_note_lock. */
    method NoteLock(t: nat, raised: bool, preRaise: int)
      requires Valid() && t < tr.Length
      modifies this`heldSum, this`raiser, tr
      ensures Valid() && OthersKept(t)
      ensures raiser == (if raised then t else old(raiser)) && heldSum == old(heldSum) + 1
      ensures var was := old(tr[t]);
              tr[t] == was.(held := was.held + 1,
                            saved := if raised then preRaise else was.saved,
                            hasSaved := was.hasSaved || raised)
    {
      heldSum := heldSum + 1;
      tr[t] := tr[t].(held := tr[t].held + 1);
      if raised {
        tr[t] := tr[t].(saved := preRaise, hasSaved := true);
        raiser := t;
      }
    }

    /** adx_prio_note_unlock. */
    method NoteUnlock(t: nat) returns (matched: bool)
      requires Valid() && t < tr.Length
      modifies this`heldSum, tr
      ensures Valid() && OthersKept(t) && matched == (old(tr[t].held) > 0)
      ensures var drop := if matched then 1 else 0;
              heldSum == old(heldSum) - drop && tr[t] == old(tr[t]).(held := old(tr[t].held) - drop)
    {
      matched := tr[t].held > 0;
      if matched {
        tr[t] := tr[t].(held := tr[t].held - 1);
        heldSum := heldSum - 1;
      }
    }

    /** adx_prio_restore_here: the raise is over, and a raiser that is another thread is
        owed the priority it had. */
    method RestoreHere(t: nat) returns (here: bool)
      requires Valid() && t < tr.Length
      modifies this`raiser, tr
      ensures Valid() && raiser == NO_RAISER
      ensures here == !Crosses(cfg, old(View(t)).w, t)
      ensures forall u :: 0 <= u < tr.Length ==>
                tr[u] == if !here && u == old(raiser)
                         then old(tr[u]).(owed := true, owedPrio := old(tr[u].saved))
                         else old(tr[u])
    {
      here := true;
      var r := raiser;
      raiser := NO_RAISER;
      if cfg.perThreadRestore && r >= 0 && r != t {
        tr[r] := tr[r].(owed := true, owedPrio := tr[r].saved);
        here := false;
      }
    }

    /** adx_pay_owed, with adx_prio_take_owed. */
    method PayOwed(t: nat)
      requires Valid() && t < tr.Length
      modifies tr, local
      ensures Valid() && OthersKept(t) && View(t) == Paid(cfg, old(View(t)))
    {
      if cfg.perThreadRestore && tr[t].owed {
        tr[t] := tr[t].(owed := false);
        local[t] := local[t].(prio := tr[t].owedPrio);
      }
    }

    // ------------------------------------------------------------ CRI's routines

    /** The body of sub_0013B0A0, with the guard held. */
    method RaiseAndCount(t: nat)
      requires Valid() && t < local.Length
      modifies this`raiser, this`heldSum, this`count, this`slot, tr, local
      ensures Valid() && OthersKept(t) && View(t) == Counted(old(View(t)), t)
    {
      var raised, preRaise := false, 0;
      if count == 0 {
        preRaise := local[t].prio;
        raised := true;
        local[t] := local[t].(prio := ELEVATED);
        slot := preRaise;
      }
      count := count + 1;
      NoteLock(t, raised, preRaise);
    }

    /** sub_0013B0A0. */
    method Lock(t: nat)
      requires Valid() && t < local.Length && CanEnter(t)
      modifies this`owner, this`depth, this`tsum, this`regions, this`locks, this`raiser, this`heldSum,
               this`count, this`slot, tr, local
      ensures Valid() && OthersKept(t) && View(t) == LockCall(cfg, old(View(t)), t)
    {
      PayOwed(t);
      Acquire(t, 0);
      locks := locks + 1;
      RaiseAndCount(t);
    }

    /** Whose records an unlock may touch: its own, and that of the thread it leaves owed. */
    twostate predicate OthersOwed(t: nat, owes: int)
      reads this, tr, local
      requires tr.Length == local.Length
    {
      && (forall u :: 0 <= u < local.Length && u != t ==> local[u] == old(local[u]))
      && (forall u :: 0 <= u < tr.Length && u != t ==>
            tr[u] == if u == owes then old(tr[u]).(owed := true, owedPrio := old(tr[u].saved))
                     else old(tr[u]))
    }

    /** sub_0013B0E0's decrement, and what follows when it reaches zero. `owes` is the
        thread it leaves owed. */
    method Drop(t: nat) returns (ghost owes: int)
      requires Valid() && t < local.Length
      modifies this`raiser, this`count, tr, local
      ensures Valid() && OthersOwed(t, owes)
      ensures var v := Dropped(cfg, old(View(t)), t);
              View(t) == v.(owes := NO_RAISER) && owes == v.owes && owes != t
    {
      owes := NO_RAISER;
      count := count - 1;
      if count != 0 {
        return;
      }
      ghost var was := raiser;
      var here := RestoreHere(t);
      if here {
        local[t] := local[t].(prio := slot);
      } else {
        owes := was;
      }
    }

    /** The body of sub_0013B0E0, once it is admitted, up to its leave. */
    method UnlockBody(t: nat) returns (ghost owes: int)
      requires Valid() && t < local.Length
      modifies this`raiser, this`heldSum, this`count, tr, local
      ensures Valid() && OthersOwed(t, owes)
      ensures var v := Undone(cfg, old(View(t)), t);
              View(t) == v.(owes := NO_RAISER) && owes == v.owes && owes != t
    {
      owes := NO_RAISER;
      var matched := NoteUnlock(t);
      if count <= 0 && cfg.unmatchedSafe {
        Clamp(t, matched);
      } else {
        owes := Drop(t);
      }
    }

    /** An unlock at count 0, with adx_prio_rescue. */
    method Clamp(t: nat, matched: bool)
      requires Valid() && t < local.Length
      modifies local
      ensures Valid() && OthersKept(t) && View(t) == Clamped(old(View(t)), matched)
    {
      if !matched && local[t].prio == ELEVATED {
        var p := if tr[t].hasSaved then tr[t].saved else 0;
        local[t] := local[t].(prio := p);
      }
    }

    /** sub_0013B0E0. */
    method Unlock(t: nat) returns (ghost owes: int)
      requires Valid() && t < local.Length
      modifies this`owner, this`depth, this`tsum, this`regions, this`unlocksMatched, this`raiser,
               this`heldSum, this`count, tr, local
      ensures Valid() && OthersOwed(t, owes)
      ensures var v := UnlockCall(cfg, old(View(t)), t);
              View(t) == v.(owes := NO_RAISER) && owes == v.owes && owes != t
    {
      owes := NO_RAISER;
      PayOwed(t);
      var admitted := UnlockEnter(t);
      if admitted < 0 {
        return;
      }
      owes := UnlockBody(t);
      Release(t, 0);
    }

    /** adx_guard_region_enter. */
    method RegionEnter(t: nat)
      requires Valid() && t < local.Length && (cfg.outerRegion ==> CanEnter(t))
      modifies this`owner, this`depth, this`tsum, this`regions, local
      ensures Valid() && OthersKept(t) && View(t) == InRegion(cfg, old(View(t)), t)
    {
      if !cfg.outerRegion {
        return;
      }
      Acquire(t, 1);
      local[t] := local[t].(region := local[t].region + 1);
    }

    /** adx_guard_region_leave. */
    method RegionLeave(t: nat)
      requires Valid() && t < local.Length && (cfg.outerRegion ==> local[t].depth > 0 && local[t].region > 0)
      modifies this`owner, this`depth, this`tsum, this`regions, local
      ensures Valid() && OthersKept(t) && View(t) == PastRegion(cfg, old(View(t)))
    {
      if !cfg.outerRegion {
        return;
      }
      Release(t, 1);
      if local[t].region > 0 {
        local[t] := local[t].(region := local[t].region - 1);
      }
    }

    /** The body of sub_0013C460. */
    method EnterBody(t: nat)
      requires Valid() && t < local.Length && (outer == 0 ==> CanEnter(t))
      modifies this, tr, local
      ensures Valid() && OthersKept(t) && View(t) == OuterEntered(cfg, old(View(t)), t)
    {
      if outer == 0 {
        Lock(t);
      }
      outer := outer + 1;
    }

    /** The body of sub_0013C480. */
    method LeaveBody(t: nat) returns (ghost owes: int)
      requires Valid() && t < local.Length
      modifies this, tr, local
      ensures Valid() && OthersOwed(t, owes)
      ensures var v := OuterLeft(cfg, old(View(t)), t);
              View(t) == v.(owes := NO_RAISER) && owes == v.owes && owes != t
    {
      owes := NO_RAISER;
      var word := outer - 1;
      outer := word;
      if word == 0 {
        owes := Unlock(t);
      }
    }

    /** sub_0013C460: the region level leaves no trace. */
    method OuterEnter(t: nat)
      requires Valid() && t < local.Length && (cfg.outerRegion || outer == 0 ==> CanEnter(t))
      modifies this, tr, local
      ensures Valid() && OthersKept(t) && View(t) == OuterEntered(cfg, old(View(t)), t)
    {
      if cfg.outerRegion {
        RegionHidesNoEnter(cfg, View(t), t);
      }
      RegionEnter(t);
      EnterBody(t);
      RegionLeave(t);
    }

    /** sub_0013C480. */
    method OuterLeave(t: nat) returns (ghost owes: int)
      requires Valid() && t < local.Length && (cfg.outerRegion ==> CanEnter(t))
      modifies this, tr, local
      ensures Valid() && OthersOwed(t, owes)
      ensures var v := OuterLeft(cfg, old(View(t)), t);
              View(t) == v.(owes := NO_RAISER) && owes == v.owes && owes != t
    {
      ghost var was := View(t);
      LeaveHasNoTrace(cfg, was, t);
      RegionEnter(t);
      owes := LeaveBody(t);
      assert View(t) == OuterLeft(cfg, InRegion(cfg, was, t), t).(owes := NO_RAISER);
      RegionLeave(t);
    }

    /** sub_001437B0's `while own priority == 15: unlock`, for a thread that the guard lets
        in: it is over within one pass more than the larger of the refcount and the
        thread's own held locks. */
    method DropAll(t: nat) returns (passes: nat)
      requires Valid() && t < local.Length
      requires SpinReady(cfg, View(t), t) && SpinEnds(cfg, View(t), t)
      modifies this, tr, local
      ensures Valid() && local[t].prio != ELEVATED
      ensures View(t) == Passes(cfg, old(View(t)), t, passes) && passes <= PassesLeft(old(View(t)))
      ensures forall u :: 0 <= u < local.Length && u != t ==> local[u] == old(local[u])
    {
      ghost var was, now := View(t), View(t);
      passes := 0;
      while local[t].prio == ELEVATED
        invariant Valid() && View(t) == now && Spinning(cfg, was, now, t, passes)
        invariant forall u :: 0 <= u < local.Length && u != t ==> local[u] == old(local[u])
        decreases PassesLeft(now)
      {
        NextPass(cfg, was, now, t, passes);
        DropOne(t);
        now := Pass(cfg, now, t);
        passes := passes + 1;
      }
    }

    /** One pass: an unlock, whoever it leaves owed. */
    method DropOne(t: nat)
      requires Valid() && t < local.Length
      modifies this, tr, local
      ensures Valid() && View(t) == Pass(cfg, old(View(t)), t)
      ensures forall u :: 0 <= u < local.Length && u != t ==> local[u] == old(local[u])
    {
      ghost var owes := Unlock(t);
    }
  }
}
