/** Whose priority is whose: in every run in which no late lock has saved, every priority a
    thread has, has saved or is owed is the one it started with, or the elevated one. */
module AdxOwnPriority {
  import opened AdxModel
  import opened AdxExclusion
  import opened AdxAccounts
  import opened AdxPriority
  import opened AdxNoWaits
  import opened AdxCalls

  /** Thread `me`, which started at priority `own`, knows no other of its own. */
  predicate OwnOk(me: Thread, w: Words, own: int) {
    && (me.prio == own || me.prio == ELEVATED)
    && (me.rec.hasSaved ==> me.rec.saved == own)
    && (me.rec.owed ==> me.rec.hasSaved && me.rec.owedPrio == own)
    && match me.pc
       case Raising(ra) => ra == LkSlot ==> me.pre == own || me.pre == ELEVATED
       case Counting(_) => me.raised ==> me.pre == own
       case Clamping(cl) => cl == UnRescue ==> me.rec.hasSaved
       case Undoing(un) => un == UnSlot ==> w.slot == own
       case _ => true
  }

  lemma LockSideKeepsOwn(cfg: Switches, e: Effect, t: nat, own: int)
    requires PrioReady(cfg, e, t) && OwnOk(e.me, e.w, own) && OnLockSide(e.me.pc)
    ensures var e' := RoutineStep(cfg, e, t); !e'.h.savedLate ==> OwnOk(e'.me, e'.w, own)
  {
    PcCases(e.me.pc);
  }

  lemma UnlockSideKeepsOwn(cfg: Switches, e: Effect, t: nat, own: int)
    requires PrioReady(cfg, e, t) && OwnOk(e.me, e.w, own) && OnUnlockSide(e.me.pc)
    ensures var e' := RoutineStep(cfg, e, t); OwnOk(e'.me, e'.w, own)
  {
    PcCases(e.me.pc);
  }

  lemma OuterSideKeepsOwn(cfg: Switches, e: Effect, t: nat, own: int)
    requires PrioReady(cfg, e, t) && OwnOk(e.me, e.w, own) && OnOuterSide(e.me.pc)
    ensures var e' := RoutineStep(cfg, e, t); OwnOk(e'.me, e'.w, own)
  {
    PcCases(e.me.pc);
  }

  lemma StepKeepsOwn(cfg: Switches, e: Effect, t: nat, act: Act, own: int)
    requires Both(cfg) && LocalOk(cfg, e, t) && WordsOk(cfg, e.me, e.w) && LocalPrioOk(e, t)
    requires Enabled(cfg, e, t, act) && e.owes == NO_RAISER && OwnOk(e.me, e.w, own)
    ensures var e' := StepOf(cfg, e, t, act); !e'.h.savedLate ==> OwnOk(e'.me, e'.w, own)
  {
    if act == Step {
      if OnLockSide(e.me.pc) {
        LockSideKeepsOwn(cfg, e, t, own);
      } else if OnUnlockSide(e.me.pc) {
        UnlockSideKeepsOwn(cfg, e, t, own);
      } else {
        OuterSideKeepsOwn(cfg, e, t, own);
      }
    }
  }

  /** A thread that did not step, made owed or not, still knows its own priority only. */
  lemma OtherKeepsOwn(cfg: Switches, s: State, m: Move, u: nat, own: int)
    requires Both(cfg) && Inv(cfg, s) && PrioInv(s) && CanDo(cfg, s, m)
    requires u < |s.th| && u != m.who && OwnOk(s.th[u], s.w, own)
    requires var e := Before(s, m.who); RaiserMoves(e, StepOf(cfg, e, m.who, m.act), m.who)
    ensures OwnOk(Do(cfg, s, m).th[u], Do(cfg, s, m).w, own)
  {
    assert PrioOk(s.th[u], u, s.w);
    if InBody(s.th[u].pc) {
      BodyIsolated(cfg, s, u, m);
    } else {
      PcCases(s.th[u].pc);
    }
  }

  predicate OwnInv(s0: State, s: State) {
    |s.th| == |s0.th| && forall t :: 0 <= t < |s.th| ==> OwnOk(s.th[t], s.w, s0.th[t].prio)
  }

  lemma DoKeepsOwn(cfg: Switches, s0: State, s: State, m: Move)
    requires Both(cfg) && Inv(cfg, s) && PrioInv(s) && OwnInv(s0, s) && !Do(cfg, s, m).h.savedLate
    ensures OwnInv(s0, Do(cfg, s, m))
  {
    if CanDo(cfg, s, m) {
      var t, e := m.who, Before(s, m.who);
      assert ThreadOk(cfg, s.th[t]) && s.th[t].depth == DueDepth(s.g, t);
      assert PrioOk(s.th[t], t, s.w) && WordsOk(cfg, s.th[t], s.w);
      StepKeepsPrio(cfg, e, t, m.act);
      StepKeepsOwn(cfg, e, t, m.act, s0.th[t].prio);
      forall u | 0 <= u < |s.th|
        ensures OwnOk(Do(cfg, s, m).th[u], Do(cfg, s, m).w, s0.th[u].prio)
      {
        if u != t {
          OtherKeepsOwn(cfg, s, m, u, s0.th[u].prio);
        }
      }
    }
  }

  lemma {:induction false} OwnAlways(cfg: Switches, s0: State, moves: seq<Move>)
    requires Both(cfg) && ValidStart(s0) && !Exec(cfg, s0, moves).h.savedLate
    ensures OwnInv(s0, Exec(cfg, s0, moves))
  {
    if moves == [] {
      assert forall t :: 0 <= t < |s0.th| ==> Unused(s0.th[t]);
    } else {
      var k := |moves| - 1;
      var s := Exec(cfg, s0, moves[..k]);
      HistoryGrows(cfg, s, moves[k]);
      OwnAlways(cfg, s0, moves[..k]);
      AccountsAlways(cfg, s0, moves[..k]);
      PrioAlways(cfg, s0, moves[..k]);
      DoKeepsOwn(cfg, s0, s, moves[k]);
    }
  }

  /** Every priority thread `t` has, has saved or is owed is the one it had at the start, or
      the elevated one; a thread that is not owed a restore, is not the raiser and is not in the
      middle of a raise has the one it had at the start; and the slot holds the raiser's. */
  predicate OwnPriority(s0: State, s: State, t: nat)
    requires t < |s.th| == |s0.th|
  {
    var me, own := s.th[t], s0.th[t].prio;
    && (me.prio == own || me.prio == ELEVATED)
    && (me.rec.hasSaved ==> me.rec.saved == own)
    && (me.rec.owed ==> me.rec.owedPrio == own)
    && (!Lifted(me) && !me.rec.owed && s.w.raiser != t ==> me.prio == own)
    && (s.w.raiser == t ==> s.w.slot == own)
  }

  /** Priority conservation. For any number of threads and any schedule, waits, unmatched
      unlocks and restores across threads included, as long as no late lock has saved: no
      thread is ever left with, or made to keep, any priority but its own, and whoever is not
      raised has it back. */
  lemma OwnPriorityKept(cfg: Switches, s0: State, moves: seq<Move>, t: nat)
    requires Both(cfg) && ValidStart(s0) && t < |s0.th|
    requires var s := Exec(cfg, s0, moves); |s.th| == |s0.th| && !s.h.savedLate
    ensures OwnPriority(s0, Exec(cfg, s0, moves), t)
  {
    var s := Exec(cfg, s0, moves);
    OwnAlways(cfg, s0, moves);
    PrioAlways(cfg, s0, moves);
    assert OwnOk(s.th[t], s.w, s0.th[t].prio) && PrioOk(s.th[t], t, s.w);
  }

  /** What a thread is owed it has again after its next whole call, a lock or an unlock: it is
      owed nothing any more, and unless that lock raised it or it is the raiser still, it is
      at the priority it started with. */
  lemma CollectsAtNextCall(cfg: Switches, s0: State, moves: seq<Move>, t: nat, call: seq<Move>)
    requires Both(cfg) && ValidStart(s0) && t < |s0.th|
    requires var s := Exec(cfg, s0, moves); |s.th| == |s0.th| && s.th[t].pc == Idle && CanTake(s.g, t)
    requires call == LockMoves(t) || call == UnlockMoves(t)
    requires !Exec(cfg, s0, moves + call).h.savedLate
    ensures var s' := Exec(cfg, s0, moves + call);
            && |s'.th| == |s0.th| && s'.th[t].pc == Idle && !s'.th[t].rec.owed
            && (s'.w.raiser != t ==> s'.th[t].prio == s0.th[t].prio)
  {
    var s := Exec(cfg, s0, moves);
    ExecAppend(cfg, s0, moves, call);
    HistoryOnlyGrows(cfg, s, call);
    AccountsAlways(cfg, s0, moves);
    PrioAlways(cfg, s0, moves);
    OwedNothingAfter(cfg, s, t, call);
    OwnPriorityKept(cfg, s0, moves + call, t);
  }

  lemma OwedNothingAfter(cfg: Switches, s: State, t: nat, call: seq<Move>)
    requires cfg.perThreadRestore && CallReady(cfg, s, t) && CanTake(s.g, t)
    requires call == LockMoves(t) || call == UnlockMoves(t)
    ensures var s' := Exec(cfg, s, call); |s'.th| == |s.th| && s'.th[t].pc == Idle && !s'.th[t].rec.owed
  {
    CallsCollect(cfg, See(Before(s, t)), t);
    if call == LockMoves(t) {
      LockInRun(cfg, s, t);
    } else {
      UnlockInRun(cfg, s, t);
    }
  }

  lemma CallsCollect(cfg: Switches, v: Seen, t: nat)
    requires cfg.perThreadRestore
    ensures !LockCall(cfg, v, t).rec.owed && !UnlockCall(cfg, v, t).rec.owed
  {}

  lemma {:induction false} HistoryOnlyGrows(cfg: Switches, s: State, moves: seq<Move>)
    ensures s.h.savedLate ==> Exec(cfg, s, moves).h.savedLate
  {
    if moves != [] {
      var k := |moves| - 1;
      HistoryOnlyGrows(cfg, s, moves[..k]);
      HistoryGrows(cfg, Exec(cfg, s, moves[..k]), moves[k]);
    }
  }

  /** So with collection in the step that takes the guard, in every run ... */
  lemma OwnPriorityInOneStep(cfg: Switches, s0: State, moves: seq<Move>, t: nat)
    requires Both(cfg) && cfg.collectWithTake && ValidStart(s0) && t < |s0.th|
    requires |Exec(cfg, s0, moves).th| == |s0.th|
    ensures OwnPriority(s0, Exec(cfg, s0, moves), t)
  {
    NobodyEverLate(cfg, s0, moves);
    OwnPriorityKept(cfg, s0, moves, t);
  }

  /** ... and, with the code as it is, in every run with no blocking wait. */
  lemma OwnPriorityWithoutWaits(cfg: Switches, s0: State, moves: seq<Move>, t: nat)
    requires Both(cfg) && ValidStart(s0) && NoBlocks(moves) && t < |s0.th|
    requires |Exec(cfg, s0, moves).th| == |s0.th|
    ensures OwnPriority(s0, Exec(cfg, s0, moves), t)
  {
    NeverPoisonedWithoutWaits(cfg, s0, moves);
    PrioAlways(cfg, s0, moves);
    OwnPriorityKept(cfg, s0, moves, t);
  }
}
