/** Exactness without waits: in a run where no thread blocks in the kernel, the guard is
    priority elevation again. The refcount, the ledger and the guard's nesting agree, the
    count reaches zero on the raiser only, and nobody is ever owed anything, whatever
    unmatched unlocks other threads issue. */
module AdxNoWaits {
  import opened AdxModel
  import opened AdxSums
  import opened AdxExclusion
  import opened AdxAccounts
  import opened AdxPriority

  /** Levels above the region levels that the ledger does not count: the lock or unlock
      body the thread is in. An unmatched unlock shows up only at its note. */
  predicate LedgerExact(me: Thread) {
    var own := me.depth - me.region;
    match me.pc
    case Locking(lk) => me.rec.held == if lk == LkCounted then own - 1 else own
    case Admitting(ad) => me.rec.held == own || (ad == UnNote && me.rec.held == 0 && own == 1)
    case _ =>
      me.rec.held == if InBody(me.pc) then own - 1 else own
  }

  /** A thread that has never waited. */
  predicate Unwaited(me: Thread) {
    !me.inWait && !me.pc.Waking? && me.parked == 0 && !me.rec.owed && LedgerExact(me)
  }

  /** The refcount against the ledger of the thread inside. */
  predicate CountExact(me: Thread, w: Words) {
    match me.pc
    case Counting(co) => w.count == if co == LkNote then me.rec.held + 1 else me.rec.held
    case Clamping(cl) =>
      if cl == UnTest
      then w.count == me.rec.held + (if me.matched then 1 else 0) && (!me.matched ==> me.rec.held == 0)
      else !me.matched && w.count == me.rec.held == 0
    case Dropping(dr) =>
      me.matched && w.count == if dr == UnZero then me.rec.held else me.rec.held + 1
    case _ => w.count == me.rec.held
  }

  /** The raiser is the thread inside while the count is positive, and nobody otherwise. */
  predicate RaiserExact(me: Thread, t: nat, w: Words) {
    match me.pc
    case Counting(co) => if co == LkNote && me.raised then w.raiser < 0 else RaiserIs(t, w)
    case Dropping(dr) => if dr == UnZero then w.raiser == t else RaiserIs(t, w)
    case Undoing(un) =>
      if un == UnOwe then w.raiser == t
      else if un == UnSlot then w.raiser < 0
      else RaiserIs(t, w)
    case _ => RaiserIs(t, w)
  }

  predicate RaiserIs(t: nat, w: Words) {
    if w.count > 0 then w.raiser == t else w.raiser < 0
  }

  predicate Exact(me: Thread, t: nat, w: Words) {
    CountExact(me, w) && RaiserExact(me, t, w)
  }

  predicate ExactReady(cfg: Switches, e: Effect, t: nat) {
    && cfg.unmatchedSafe && LocalOk(cfg, e, t) && WordsOk(cfg, e.me, e.w) && Unwaited(e.me)
    && (CanTake(e.g, t) ==> Exact(e.me, t, e.w))
    && e.owes == NO_RAISER && Enabled(cfg, e, t, Step)
  }

  predicate ExactKept(e': Effect, t: nat) {
    Unwaited(e'.me) && (CanTake(e'.g, t) ==> Exact(e'.me, t, e'.w)) && e'.owes == NO_RAISER
  }

  lemma LockKeepsExact(cfg: Switches, e: Effect, t: nat)
    requires ExactReady(cfg, e, t) && e.me.pc.Locking?
    ensures ExactKept(RoutineStep(cfg, e, t), t)
  {
    PcCases(e.me.pc);
  }

  lemma RaiseKeepsExact(cfg: Switches, e: Effect, t: nat)
    requires ExactReady(cfg, e, t) && e.me.pc.Raising?
    ensures ExactKept(RoutineStep(cfg, e, t), t)
  {
    PcCases(e.me.pc);
  }

  lemma CountKeepsExact(cfg: Switches, e: Effect, t: nat)
    requires ExactReady(cfg, e, t) && e.me.pc.Counting?
    ensures ExactKept(RoutineStep(cfg, e, t), t)
  {
    PcCases(e.me.pc);
  }

  lemma AdmitKeepsExact(cfg: Switches, e: Effect, t: nat)
    requires ExactReady(cfg, e, t) && e.me.pc.Admitting?
    ensures ExactKept(RoutineStep(cfg, e, t), t)
  {
    PcCases(e.me.pc);
  }

  lemma ClampKeepsExact(cfg: Switches, e: Effect, t: nat)
    requires ExactReady(cfg, e, t) && e.me.pc.Clamping?
    ensures ExactKept(RoutineStep(cfg, e, t), t)
  {
    PcCases(e.me.pc);
  }

  lemma DropKeepsExact(cfg: Switches, e: Effect, t: nat)
    requires ExactReady(cfg, e, t) && e.me.pc.Dropping?
    ensures ExactKept(RoutineStep(cfg, e, t), t)
  {
    PcCases(e.me.pc);
  }

  lemma UndoKeepsExact(cfg: Switches, e: Effect, t: nat)
    requires ExactReady(cfg, e, t) && e.me.pc.Undoing?
    ensures ExactKept(RoutineStep(cfg, e, t), t)
  {
    PcCases(e.me.pc);
  }

  lemma EnterKeepsExact(cfg: Switches, e: Effect, t: nat)
    requires ExactReady(cfg, e, t) && e.me.pc.Entering?
    ensures ExactKept(RoutineStep(cfg, e, t), t)
  {
    PcCases(e.me.pc);
  }

  lemma LeaveKeepsExact(cfg: Switches, e: Effect, t: nat)
    requires ExactReady(cfg, e, t) && e.me.pc.Leaving?
    ensures ExactKept(RoutineStep(cfg, e, t), t)
  {
    PcCases(e.me.pc);
  }

  lemma StepKeepsExact(cfg: Switches, e: Effect, t: nat, act: Act)
    requires cfg.unmatchedSafe && LocalOk(cfg, e, t) && WordsOk(cfg, e.me, e.w) && Unwaited(e.me)
    requires CanTake(e.g, t) ==> Exact(e.me, t, e.w)
    requires e.owes == NO_RAISER && act != Block && Enabled(cfg, e, t, act)
    ensures ExactKept(StepOf(cfg, e, t, act), t)
  {
    if act == Step {
      match e.me.pc
      case Locking(_) => LockKeepsExact(cfg, e, t);
      case Raising(_) => RaiseKeepsExact(cfg, e, t);
      case Counting(_) => CountKeepsExact(cfg, e, t);
      case Admitting(_) => AdmitKeepsExact(cfg, e, t);
      case Clamping(_) => ClampKeepsExact(cfg, e, t);
      case Dropping(_) => DropKeepsExact(cfg, e, t);
      case Undoing(_) => UndoKeepsExact(cfg, e, t);
      case Entering(_) => EnterKeepsExact(cfg, e, t);
      case Leaving(_) => LeaveKeepsExact(cfg, e, t);
    }
  }

  // ------------------------------------------------------------ whole runs

  /** The thread inside agrees with the words; with nobody inside, nothing is counted. */
  predicate ExactInv(s: State) {
    && (forall u :: 0 <= u < |s.th| ==> Unwaited(s.th[u]))
    && InsideAgrees(s)
  }

  predicate NoBlocks(moves: seq<Move>) {
    forall k :: 0 <= k < |moves| ==> moves[k].act != Block
  }

  /** A thread that holds no level agrees with words that count nothing. */
  lemma NobodyInside(cfg: Switches, me: Thread, t: nat, w: Words)
    requires ThreadOk(cfg, me) && Unwaited(me) && me.depth == 0
    ensures me.rec.held == 0 && !InBody(me.pc)
    ensures Exact(me, t, w) <==> w.count == 0 && w.raiser < 0
  {
    PcCases(me.pc);
  }

  /** Whoever is inside agrees with the words; with nobody inside, nothing is counted. */
  predicate InsideAgrees(s: State) {
    if s.g.owner == 0 then s.w.count == 0 && s.w.raiser < 0
    else s.g.owner <= |s.th| && Exact(s.th[s.g.owner - 1], s.g.owner - 1, s.w)
  }

  /** The step itself. */
  lemma MoveKeepsExact(cfg: Switches, s: State, m: Move)
    requires cfg.unmatchedSafe && Inv(cfg, s) && ExactInv(s) && m.act != Block && CanDo(cfg, s, m)
    ensures ExactKept(StepOf(cfg, Before(s, m.who), m.who, m.act), m.who)
  {
    var t, e := m.who, Before(s, m.who);
    assert ThreadOk(cfg, s.th[t]) && s.th[t].depth == DueDepth(s.g, t);
    assert WordsOk(cfg, s.th[t], s.w) && Unwaited(s.th[t]);
    if s.g.owner == 0 {
      NobodyInside(cfg, s.th[t], t, s.w);
    }
    StepKeepsExact(cfg, e, t, m.act);
  }

  /** A move made while another thread is inside. */
  lemma OutsiderKeepsInside(cfg: Switches, s: State, m: Move)
    requires Inv(cfg, s) && InsideAgrees(s) && CanDo(cfg, s, m) && !CanTake(s.g, m.who)
    ensures InsideAgrees(Do(cfg, s, m))
  {
    var t, e := m.who, Before(s, m.who);
    assert ThreadOk(cfg, s.th[t]) && s.th[t].depth == DueDepth(s.g, t);
    OutsiderTouchesNothing(cfg, e, t, m.act);
    OnlyTheOuterWord(s.th[s.g.owner - 1], s.g.owner - 1, s.w, StepOf(cfg, e, t, m.act).w);
  }

  /** A move made with nobody else inside. */
  lemma InsiderKeepsInside(cfg: Switches, s: State, m: Move)
    requires Inv(cfg, s) && CanDo(cfg, s, m) && CanTake(s.g, m.who)
    requires ExactKept(StepOf(cfg, Before(s, m.who), m.who, m.act), m.who)
    ensures InsideAgrees(Do(cfg, s, m))
  {
    var t, e := m.who, Before(s, m.who);
    assert ThreadOk(cfg, s.th[t]) && s.th[t].depth == DueDepth(s.g, t);
    StepKeepsGuard(cfg, e, t, m.act);
    var e' := StepOf(cfg, e, t, m.act);
    if e'.g.owner == 0 {
      NobodyInside(cfg, e'.me, t, e'.w);
    }
  }

  lemma DoKeepsExact(cfg: Switches, s: State, m: Move)
    requires cfg.unmatchedSafe && Inv(cfg, s) && ExactInv(s) && m.act != Block
    ensures ExactInv(Do(cfg, s, m))
  {
    if CanDo(cfg, s, m) {
      MoveKeepsExact(cfg, s, m);
      if CanTake(s.g, m.who) {
        InsiderKeepsInside(cfg, s, m);
      } else {
        OutsiderKeepsInside(cfg, s, m);
      }
    }
  }

  lemma OnlyTheOuterWord(me: Thread, t: nat, w: Words, w': Words)
    requires w'.(outer := w.outer) == w && Exact(me, t, w)
    ensures Exact(me, t, w')
  {}

  lemma {:induction false} ExactAlways(cfg: Switches, s0: State, moves: seq<Move>)
    requires cfg.unmatchedSafe && AtRest(s0) && NoBlocks(moves)
    ensures ExactInv(Exec(cfg, s0, moves))
  {
    if moves != [] {
      var k := |moves| - 1;
      ExactAlways(cfg, s0, moves[..k]);
      AccountsAlways(cfg, s0, moves[..k]);
      DoKeepsExact(cfg, Exec(cfg, s0, moves[..k]), moves[k]);
    }
  }

  /** Outside the bodies there is nothing in flight. */
  lemma OutsideExact(cfg: Switches, me: Thread)
    requires ThreadOk(cfg, me) && Unwaited(me) && !InBody(me.pc)
    ensures me.rec.held == me.depth - me.region
  {
    PcCases(me.pc);
  }

  lemma OutsideCounts(me: Thread, t: nat, w: Words)
    requires Exact(me, t, w) && !InBody(me.pc)
    ensures w.count == me.rec.held && (w.count > 0 ==> w.raiser == t)
  {
    PcCases(me.pc);
  }

  /** The refcount, the ledger's sum and the owner's nesting less its region levels are one
      number, the raiser of a positive count is the owner, and nobody is owed. */
  predicate OneNumber(s: State) {
    && s.w.count == s.w.heldSum
    && (if s.g.owner == 0 then s.w.count == 0
        else s.g.owner <= |s.th| && s.w.count == s.g.depth - s.th[s.g.owner - 1].region)
    && (s.w.count > 0 ==> s.w.raiser == s.g.owner - 1)
    && forall u :: 0 <= u < |s.th| ==> !s.th[u].rec.owed
  }

  /** Outside bodies only the owner has anything in the ledger. */
  lemma OnlyTheOwnerHolds(cfg: Switches, s: State)
    requires GuardInv(cfg, s) && OutsideBodies(s)
    requires forall u :: 0 <= u < |s.th| ==> Unwaited(s.th[u])
    ensures s.g.owner == 0 ==> Sum(Helds, s.th) == 0
    ensures s.g.owner != 0 ==>
              var me := s.th[s.g.owner - 1]; Sum(Helds, s.th) == me.rec.held == s.g.depth - me.region
  {
    forall u | 0 <= u < |s.th|
      ensures s.th[u].rec.held == s.th[u].depth - s.th[u].region
      ensures u != s.g.owner - 1 ==> s.th[u].rec.held == 0
    {
      assert Unwaited(s.th[u]) && ThreadOk(cfg, s.th[u]) && s.th[u].depth == DueDepth(s.g, u);
      OutsideExact(cfg, s.th[u]);
    }
    if s.g.owner == 0 {
      SumZero(Helds, s.th);
    } else {
      SumOnly(Helds, s.th, s.g.owner - 1);
    }
  }

  /** With no waits, and any locks, unlocks and unmatched unlocks from any threads, the
      refcount, the ledger and the guard tell the same story outside bodies. */
  lemma ExactWithoutWaits(cfg: Switches, s0: State, moves: seq<Move>)
    requires cfg.unmatchedSafe && AtRest(s0) && NoBlocks(moves)
    requires OutsideBodies(Exec(cfg, s0, moves))
    ensures OneNumber(Exec(cfg, s0, moves))
  {
    ExactAlways(cfg, s0, moves);
    AccountsAlways(cfg, s0, moves);
    var s := Exec(cfg, s0, moves);
    OnlyTheOwnerHolds(cfg, s);
    if s.g.owner != 0 {
      OutsideCounts(s.th[s.g.owner - 1], s.g.owner - 1, s.w);
    }
  }

  /** ... and at every step: the count reaches zero on the raiser only, so no unlock ever
      leaves another thread owed, and no lock ever takes the guard late. */
  lemma NobodyOwedWithoutWaits(cfg: Switches, s0: State, moves: seq<Move>, m: Move)
    requires cfg.unmatchedSafe && AtRest(s0) && NoBlocks(moves)
    requires var s := Exec(cfg, s0, moves); CanDo(cfg, s, m) && s.th[m.who].pc == Undoing(UnOwe)
    ensures var s := Exec(cfg, s0, moves); s.w.raiser == m.who && !Crosses(cfg, s.w, m.who)
  {
    ExactAlways(cfg, s0, moves);
    ExclusionAlways(cfg, s0, moves) by {
      GuardInvStart(cfg, s0);
    }
    ZeroIsTheRaisers(cfg, Exec(cfg, s0, moves), m.who);
  }

  lemma ZeroIsTheRaisers(cfg: Switches, s: State, t: nat)
    requires GuardInv(cfg, s) && ExactInv(s) && t < |s.th| && s.th[t].pc == Undoing(UnOwe)
    ensures s.w.raiser == t
  {
    assert ThreadOk(cfg, s.th[t]) && s.th[t].depth == DueDepth(s.g, t);
  }

  lemma DoTakesNobodyLate(cfg: Switches, s: State, m: Move)
    requires NobodyLate(s) && forall u :: 0 <= u < |s.th| ==> !s.th[u].rec.owed
    ensures NobodyLate(Do(cfg, s, m))
  {
    if CanDo(cfg, s, m) {
      PcCases(s.th[m.who].pc);
      assert !s.th[m.who].late && !s.th[m.who].rec.owed;
      var s' := Do(cfg, s, m);
      assert !StepOf(cfg, Before(s, m.who), m.who, m.act).me.late;
      forall u | 0 <= u < |s'.th|
        ensures !s'.th[u].late
      {
        assert !s.th[u].late;
      }
    }
  }

  lemma {:induction false} NobodyLateWithoutWaits(cfg: Switches, s0: State, moves: seq<Move>)
    requires cfg.unmatchedSafe && AtRest(s0) && NoBlocks(moves)
    ensures NobodyLate(Exec(cfg, s0, moves))
  {
    if moves != [] {
      var k := |moves| - 1;
      NobodyLateWithoutWaits(cfg, s0, moves[..k]);
      ExactAlways(cfg, s0, moves[..k]);
      DoTakesNobodyLate(cfg, Exec(cfg, s0, moves[..k]), moves[k]);
    }
  }

  /** So the window in the order of collection and acquisition opens through a blocking wait
      only: in a run with none, the code as written never saves the elevated value, and
      outside bodies slot, raiser, ledger and priorities agree. */
  lemma NeverPoisonedWithoutWaits(cfg: Switches, s0: State, moves: seq<Move>)
    requires Both(cfg) && ValidStart(s0) && NoBlocks(moves)
    ensures !Exec(cfg, s0, moves).h.savedElevated
    ensures OutsideBodies(Exec(cfg, s0, moves)) ==> Agreed(Exec(cfg, s0, moves))
  {
    NobodyLateWithoutWaits(cfg, s0, moves);
    PoisonedExactlyWhenLate(cfg, s0, moves);
    if OutsideBodies(Exec(cfg, s0, moves)) {
      AgreementWhileNotLate(cfg, s0, moves);
    }
  }
}
