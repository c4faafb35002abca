/** Never poisoned: what the saved-priority slot, the ledger and each thread's priority
    agree on in every reachable state, and exactly when a lock saves the elevated value.

    The owed restore is collected before the guard is taken, so a raiser can become owed
    while it is queued. The results below are about that code as it is. */
module AdxPriority {
  import opened AdxModel
  import opened AdxExclusion
  import opened AdxAccounts

  /** Is the thread raised by a lock it is still inside, or about to be restored by the
      unlock it is inside? */
  predicate Lifted(me: Thread) {
    me.pc == Raising(LkSlot) || (me.pc.Counting? && me.raised) || me.pc == Undoing(UnSlot)
  }

  /** Is the thread between the refcount and the ledger's raiser, so that the two may
      disagree? */
  predicate Between(me: Thread) {
    (me.pc == Counting(LkNote) && me.raised) || me.pc == Dropping(UnZero) || me.pc == Undoing(UnOwe)
  }

  /** A raise being outstanding and the refcount being positive are the same thing. */
  predicate RaiserMatches(w: Words) {
    w.raiser >= 0 <==> w.count > 0
  }

  /** Where in its routine thread `t` is, and what that says about priorities. */
  predicate RoutinePrioOk(me: Thread, w: Words) {
    match me.pc
    case Locking(lk) =>
      && (lk == LkTake && me.rec.owed ==> me.prio == ELEVATED)
      && (lk == LkCounted && w.count == 0 ==> LateOk(me))
    case Raising(ra) =>
      && (ra == LkRead && w.count == 0 ==> LateOk(me))
      && (ra == LkRaise ==> LateOk(me))
      && (ra == LkSlot ==> me.prio == ELEVATED && me.raised && me.rec.owed == me.late
                           && (me.pre == ELEVATED <==> me.late))
    case Counting(_) =>
      me.raised ==> me.prio == ELEVATED && !me.rec.owed && me.pre != ELEVATED
                    && w.slot == me.pre && w.raiser < 0
    case Dropping(dr) => dr == UnZero ==> w.raiser >= 0
    case Undoing(un) =>
      && (un == UnOwe ==> w.raiser >= 0)
      && (un == UnSlot ==> w.raiser < 0 && w.slot != ELEVATED)
    case _ => true
  }

  /** A lock about to save: late means owed, and owed means still raised. */
  predicate LateOk(me: Thread) {
    me.rec.owed == me.late && (me.rec.owed ==> me.prio == ELEVATED)
  }

  predicate PrioOk(me: Thread, t: nat, w: Words) {
    && (me.rec.hasSaved ==> me.rec.saved != ELEVATED)
    && (me.rec.owed ==> me.rec.owedPrio != ELEVATED)
    && (w.raiser == t ==>
          me.rec.hasSaved && me.rec.saved == w.slot && me.prio == ELEVATED && !me.rec.owed)
    && (me.prio == ELEVATED ==> me.rec.owed || w.raiser == t || Lifted(me))
    && RoutinePrioOk(me, w)
  }

  /** The same, for the thread about to step, with the shared agreement it can rely on
      when nobody else is inside. */
  predicate LocalPrioOk(e: Effect, t: nat) {
    && PrioOk(e.me, t, e.w)
    && (CanTake(e.g, t) ==> Between(e.me) || RaiserMatches(e.w))
    && !e.h.savedElevated && !e.h.savedLate
  }

  /** How a step may move the raiser and the slot. */
  predicate RaiserMoves(e: Effect, e': Effect, t: nat) {
    && (e'.w.slot != e.w.slot ==> e.w.raiser < 0)
    && (e'.w.raiser != e.w.raiser ==>
          (e.w.raiser < 0 && e'.w.raiser == t)
          || (e'.w.raiser == NO_RAISER && (e.w.raiser == t || e'.owes == e.w.raiser)))
    && (e'.owes != NO_RAISER ==>
          e'.owes == e.w.raiser && e'.owes >= 0 && e'.owes != t && e'.w.raiser == NO_RAISER)
  }

  /** What a step keeps: either the run's first elevated save happened just now, by a lock
      that took the guard late, or nothing is poisoned and everything still agrees. */
  predicate PrioKept(e: Effect, e': Effect, t: nat) {
    && e'.h.savedElevated == e'.h.savedLate
    && (!e'.h.savedLate ==> LocalPrioOk(e', t) && RaiserMoves(e, e', t))
  }

  predicate Both(cfg: Switches) {
    cfg.perThreadRestore && cfg.unmatchedSafe
  }

  predicate PrioReady(cfg: Switches, e: Effect, t: nat) {
    && Both(cfg) && LocalOk(cfg, e, t) && WordsOk(cfg, e.me, e.w) && LocalPrioOk(e, t)
    && Enabled(cfg, e, t, Step) && e.owes == NO_RAISER
  }

  lemma LockKeepsPrio(cfg: Switches, e: Effect, t: nat)
    requires PrioReady(cfg, e, t) && e.me.pc.Locking?
    ensures PrioKept(e, LockStep(cfg, e, t), t)
  {
    PcCases(e.me.pc);
  }

  lemma RaiseKeepsPrio(cfg: Switches, e: Effect, t: nat)
    requires PrioReady(cfg, e, t) && e.me.pc.Raising?
    ensures PrioKept(e, RaiseStep(e), t)
  {
    PcCases(e.me.pc);
  }

  lemma CountKeepsPrio(cfg: Switches, e: Effect, t: nat)
    requires PrioReady(cfg, e, t) && e.me.pc.Counting?
    ensures PrioKept(e, CountStep(e, t), t)
  {
    PcCases(e.me.pc);
  }

  lemma AdmitKeepsPrio(cfg: Switches, e: Effect, t: nat)
    requires PrioReady(cfg, e, t) && e.me.pc.Admitting?
    ensures PrioKept(e, AdmitStep(cfg, e, t), t)
  {
    PcCases(e.me.pc);
  }

  lemma ClampKeepsPrio(cfg: Switches, e: Effect, t: nat)
    requires PrioReady(cfg, e, t) && e.me.pc.Clamping?
    ensures PrioKept(e, ClampStep(cfg, e), t)
  {
    PcCases(e.me.pc);
  }

  lemma DropKeepsPrio(cfg: Switches, e: Effect, t: nat)
    requires PrioReady(cfg, e, t) && e.me.pc.Dropping?
    ensures PrioKept(e, DropStep(e), t)
  {
    PcCases(e.me.pc);
  }

  lemma UndoKeepsPrio(cfg: Switches, e: Effect, t: nat)
    requires PrioReady(cfg, e, t) && e.me.pc.Undoing?
    ensures PrioKept(e, UndoStep(cfg, e, t), t)
  {
    PcCases(e.me.pc);
  }

  lemma EnterKeepsPrio(cfg: Switches, e: Effect, t: nat)
    requires PrioReady(cfg, e, t) && e.me.pc.Entering?
    ensures PrioKept(e, EnterStep(cfg, e, t), t)
  {
    PcCases(e.me.pc);
  }

  lemma LeaveKeepsPrio(cfg: Switches, e: Effect, t: nat)
    requires PrioReady(cfg, e, t) && e.me.pc.Leaving?
    ensures PrioKept(e, LeaveStep(cfg, e, t), t)
  {
    PcCases(e.me.pc);
  }

  lemma WakeKeepsPrio(cfg: Switches, e: Effect, t: nat)
    requires PrioReady(cfg, e, t) && e.me.pc.Waking?
    ensures PrioKept(e, WakeStep(e, t), t)
  {
    PcCases(e.me.pc);
  }

  lemma CallKeepsPrio(cfg: Switches, e: Effect, t: nat, act: Act)
    requires Both(cfg) && LocalOk(cfg, e, t) && LocalPrioOk(e, t)
    requires act != Step && Enabled(cfg, e, t, act) && e.owes == NO_RAISER
    ensures PrioKept(e, CallStep(e, t, act), t)
  {}

  lemma StepKeepsPrio(cfg: Switches, e: Effect, t: nat, act: Act)
    requires Both(cfg) && LocalOk(cfg, e, t) && WordsOk(cfg, e.me, e.w) && LocalPrioOk(e, t)
    requires Enabled(cfg, e, t, act) && e.owes == NO_RAISER
    ensures PrioKept(e, StepOf(cfg, e, t, act), t)
  {
    if act != Step {
      CallKeepsPrio(cfg, e, t, act);
    } else {
      match e.me.pc
      case Locking(_) => LockKeepsPrio(cfg, e, t);
      case Raising(_) => RaiseKeepsPrio(cfg, e, t);
      case Counting(_) => CountKeepsPrio(cfg, e, t);
      case Admitting(_) => AdmitKeepsPrio(cfg, e, t);
      case Clamping(_) => ClampKeepsPrio(cfg, e, t);
      case Dropping(_) => DropKeepsPrio(cfg, e, t);
      case Undoing(_) => UndoKeepsPrio(cfg, e, t);
      case Entering(_) => EnterKeepsPrio(cfg, e, t);
      case Leaving(_) => LeaveKeepsPrio(cfg, e, t);
      case Waking(_) => WakeKeepsPrio(cfg, e, t);
    }
  }

  // ------------------------------------------------------------ whole runs

  /** The refcount and the raiser agree, unless the one thread inside is between them. */
  predicate Agree(s: State) {
    RaiserMatches(s.w) || (0 < s.g.owner <= |s.th| && Between(s.th[s.g.owner - 1]))
  }

  predicate PrioInv(s: State) {
    && !s.h.savedElevated && !s.h.savedLate
    && NO_RAISER <= s.w.raiser < |s.th|
    && Agree(s)
    && forall u :: 0 <= u < |s.th| ==> PrioOk(s.th[u], u, s.w)
  }

  /** A thread that did not step keeps its agreement with the shared words. */
  lemma OtherKeepsPrio(cfg: Switches, s: State, m: Move, u: nat)
    requires Both(cfg) && Inv(cfg, s) && PrioInv(s) && CanDo(cfg, s, m)
    requires u < |s.th| && u != m.who
    requires var e := Before(s, m.who); RaiserMoves(e, StepOf(cfg, e, m.who, m.act), m.who)
    ensures PrioOk(Do(cfg, s, m).th[u], u, Do(cfg, s, m).w)
  {
    assert PrioOk(s.th[u], u, s.w);
    if InBody(s.th[u].pc) {
      BodyIsolated(cfg, s, u, m);
    } else {
      PcCases(s.th[u].pc);
      OutsiderPrio(s.th[u], Do(cfg, s, m).th[u], u, s.w, Do(cfg, s, m).w);
    }
  }

  /** Outside a body, all that matters is the raiser and the slot. */
  lemma OutsiderPrio(me: Thread, me': Thread, u: nat, w: Words, w': Words)
    requires PrioOk(me, u, w) && !InBody(me.pc)
    requires w.slot != w'.slot ==> w.raiser < 0
    requires w'.raiser == w.raiser || w'.raiser != u
    requires me' == if w.raiser == u && w'.raiser != u then MakeOwed(me) else me
    ensures PrioOk(me', u, w')
  {
    PcCases(me.pc);
  }

  lemma DoKeepsAgree(cfg: Switches, s: State, m: Move)
    requires Both(cfg) && Inv(cfg, s) && PrioInv(s) && CanDo(cfg, s, m)
    requires var e := Before(s, m.who); LocalPrioOk(StepOf(cfg, e, m.who, m.act), m.who)
    ensures Agree(Do(cfg, s, m))
  {
    var t, e := m.who, Before(s, m.who);
    assert ThreadOk(cfg, s.th[t]) && s.th[t].depth == DueDepth(s.g, t);
    var s' := Do(cfg, s, m);
    if CanTake(s.g, t) {
      StepKeepsGuard(cfg, e, t, m.act);
    } else {
      OutsiderTouchesNothing(cfg, e, t, m.act);
    }
  }

  /** One move: the first elevated save of a run is a late one, and until it nothing is
      poisoned. */
  lemma DoKeepsPrio(cfg: Switches, s: State, m: Move)
    requires Both(cfg) && Inv(cfg, s) && PrioInv(s)
    ensures var s' := Do(cfg, s, m);
            s'.h.savedElevated == s'.h.savedLate && (!s'.h.savedLate ==> PrioInv(s'))
  {
    if CanDo(cfg, s, m) {
      var t, e := m.who, Before(s, m.who);
      assert ThreadOk(cfg, s.th[t]) && s.th[t].depth == DueDepth(s.g, t);
      assert PrioOk(s.th[t], t, s.w) && WordsOk(cfg, s.th[t], s.w);
      StepKeepsPrio(cfg, e, t, m.act);
      var s' := Do(cfg, s, m);
      if !s'.h.savedLate {
        DoKeepsAgree(cfg, s, m);
        forall u | 0 <= u < |s'.th|
          ensures PrioOk(s'.th[u], u, s'.w)
        {
          if u != t {
            OtherKeepsPrio(cfg, s, m, u);
          }
        }
      }
    }
  }

  /** Once poisoned, always recorded as poisoned. */
  lemma HistoryGrows(cfg: Switches, s: State, m: Move)
    ensures s.h.savedElevated ==> Do(cfg, s, m).h.savedElevated
    ensures s.h.savedLate ==> Do(cfg, s, m).h.savedLate
  {
    if CanDo(cfg, s, m) {
      PcCases(s.th[m.who].pc);
    }
  }

  lemma {:induction false} PrioAlways(cfg: Switches, s0: State, moves: seq<Move>)
    requires Both(cfg) && ValidStart(s0)
    ensures var s := Exec(cfg, s0, moves);
            s.h.savedElevated == s.h.savedLate && (!s.h.savedLate ==> PrioInv(s))
  {
    if moves != [] {
      var k := |moves| - 1;
      PrioAlways(cfg, s0, moves[..k]);
      AccountsAlways(cfg, s0, moves[..k]);
      var p := Exec(cfg, s0, moves[..k]);
      if p.h.savedLate {
        HistoryGrows(cfg, p, moves[k]);
      } else {
        DoKeepsPrio(cfg, p, moves[k]);
      }
    }
  }

  /** Poisoned exactly when late. For any number of threads and any schedule, waits and
      unmatched unlocks included: a lock saves the elevated value in a run if and only if
      some lock in that run, having taken the guard at count 0 while its thread was still
      owed a restore, went on to save. */
  lemma PoisonedExactlyWhenLate(cfg: Switches, s0: State, moves: seq<Move>)
    requires Both(cfg) && ValidStart(s0)
    ensures Exec(cfg, s0, moves).h.savedElevated <==> Exec(cfg, s0, moves).h.savedLate
  {
    PrioAlways(cfg, s0, moves);
  }

  /** A raised thread is owed its own priority or is the raiser of a positive count; and
      while the count is positive the slot holds the raiser's own priority, which is never
      the elevated one. */
  predicate Agreed(s: State) {
    && (forall t :: 0 <= t < |s.th| && s.th[t].prio == ELEVATED ==>
          (s.th[t].rec.owed && s.th[t].rec.owedPrio != ELEVATED)
          || (s.w.raiser == t && s.w.count > 0))
    && (s.w.count > 0 ==>
          && 0 <= s.w.raiser < |s.th|
          && s.th[s.w.raiser].prio == ELEVATED && !s.th[s.w.raiser].rec.owed
          && s.w.slot == s.th[s.w.raiser].rec.saved && s.w.slot != ELEVATED)
    && (s.w.count == 0 ==> s.w.raiser == NO_RAISER)
  }

  /** Until that happens, outside the bodies the words and the threads agree. */
  lemma AgreementWhileNotLate(cfg: Switches, s0: State, moves: seq<Move>)
    requires Both(cfg) && ValidStart(s0)
    requires var s := Exec(cfg, s0, moves); !s.h.savedLate && OutsideBodies(s)
    ensures Agreed(Exec(cfg, s0, moves))
  {
    PrioAlways(cfg, s0, moves);
    var s := Exec(cfg, s0, moves);
    AccountsAlways(cfg, s0, moves);
    assert RaiserMatches(s.w) by {
      if 0 < s.g.owner <= |s.th| {
        assert !InBody(s.th[s.g.owner - 1].pc);
        PcCases(s.th[s.g.owner - 1].pc);
      }
    }
    forall t | 0 <= t < |s.th| && s.th[t].prio == ELEVATED
      ensures (s.th[t].rec.owed && s.th[t].rec.owedPrio != ELEVATED) || (s.w.raiser == t && s.w.count > 0)
    {
      assert PrioOk(s.th[t], t, s.w);
      PcCases(s.th[t].pc);
    }
  }

  // ------------------------------------------------------------ collection with acquisition

  predicate NobodyLate(s: State) {
    !s.h.savedLate && forall u :: 0 <= u < |s.th| ==> !s.th[u].late
  }

  lemma DoKeepsNobodyLate(cfg: Switches, s: State, m: Move)
    requires cfg.perThreadRestore && cfg.collectWithTake && NobodyLate(s)
    ensures NobodyLate(Do(cfg, s, m))
  {
    if CanDo(cfg, s, m) {
      PcCases(s.th[m.who].pc);
      assert !s.th[m.who].late;
      var s' := Do(cfg, s, m);
      assert !StepOf(cfg, Before(s, m.who), m.who, m.act).me.late;
      forall u | 0 <= u < |s'.th|
        ensures !s'.th[u].late
      {
        assert !s.th[u].late;
      }
    }
  }

  lemma {:induction false} NobodyEverLate(cfg: Switches, s0: State, moves: seq<Move>)
    requires cfg.perThreadRestore && cfg.collectWithTake && ValidStart(s0)
    ensures NobodyLate(Exec(cfg, s0, moves))
  {
    if moves != [] {
      var k := |moves| - 1;
      NobodyEverLate(cfg, s0, moves[..k]);
      DoKeepsNobodyLate(cfg, Exec(cfg, s0, moves[..k]), moves[k]);
    }
  }

  /** Never poisoned, with what is owed collected in the step that takes the guard: no
      schedule of any number of threads ever makes a lock save the elevated value, and in
      every state outside bodies slot, raiser, ledger and priorities agree. */
  lemma NeverPoisonedInOneStep(cfg: Switches, s0: State, moves: seq<Move>)
    requires Both(cfg) && cfg.collectWithTake && ValidStart(s0)
    ensures !Exec(cfg, s0, moves).h.savedElevated
    ensures OutsideBodies(Exec(cfg, s0, moves)) ==> Agreed(Exec(cfg, s0, moves))
  {
    NobodyEverLate(cfg, s0, moves);
    PoisonedExactlyWhenLate(cfg, s0, moves);
    if OutsideBodies(Exec(cfg, s0, moves)) {
      AgreementWhileNotLate(cfg, s0, moves);
    }
  }
}
