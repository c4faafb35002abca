/** CRI's outer nesting word. With each outer-word body under the guard, the word decides the
    refcount: whoever is inside, running or blocked, the refcount is 1 exactly while the
    word is positive. What becomes of the guard's levels is `AdxLevels`. */
module AdxOuterWord {
  import opened AdxModel
  import opened AdxSums
  import opened AdxExclusion
  import opened AdxAccounts

  /** Every lock and unlock is one that an outer-word body makes, and a thread that is
      about to leave has entered. */
  predicate ThroughTheWord(me: Thread) {
    && me.balance >= 0
    && (OnLockSide(me.pc) || OnUnlockSide(me.pc) ==> me.nested)
    && (me.pc.Leaving? && me.pc.le != OuterLeave ==> me.balance > 0)
  }

  predicate WordDecides(w: Words) {
    w.outer >= 0 && w.count == if w.outer > 0 then 1 else 0
  }

  /** The refcount and the word as the thread inside sees them. */
  predicate WordSeen(me: Thread, w: Words) {
    match me.pc
    case Locking(_) => w.outer == 0 && w.count == 0
    case Raising(_) => w.outer == 0 && w.count == 0
    case Counting(co) => w.outer == 0 && w.count == if co == LkNote then 1 else 0
    case Admitting(_) => w.outer == 0 && w.count == 1
    case Clamping(cl) => cl == UnTest && w.outer == 0 && w.count == 1
    case Dropping(dr) => w.outer == 0 && w.count == if dr == UnZero then 0 else 1
    case Undoing(_) => w.outer == 0 && w.count == 0
    case Entering(en) =>
      if en == OeLoad || en == OeStore
      then w.outer >= 0 && w.count == 1 && (en == OeStore ==> me.tmp == w.outer)
      else WordDecides(w)
    case Leaving(le) => WordDecides(w) && (le == OlStore ==> me.tmp == w.outer - 1)
    case _ => WordDecides(w)
  }

  /** The traffic: calls of sub_0013C460 and sub_0013C480 and waits anywhere between
      them; a thread leaves only what it has entered. */
  predicate OuterMove(s: State, m: Move) {
    && m.act != CallLock && m.act != CallUnlock
    && (m.act == CallLeave && m.who < |s.th| ==> s.th[m.who].balance > 0)
  }

  predicate OuterRun(cfg: Switches, s0: State, moves: seq<Move>) {
    moves == [] ||
    (var k := |moves| - 1;
     OuterRun(cfg, s0, moves[..k]) && OuterMove(Exec(cfg, s0, moves[..k]), moves[k]))
  }

  // ------------------------------------------------------------ one step

  predicate WordReady(cfg: Switches, e: Effect, t: nat) {
    && cfg.outerRegion && LocalOk(cfg, e, t) && WordsOk(cfg, e.me, e.w) && ThroughTheWord(e.me)
    && (CanTake(e.g, t) ==> WordSeen(e.me, e.w))
    && (e.me.balance > 0 ==> e.w.outer > 0)
    && Enabled(cfg, e, t, Step)
  }

  /** The word moves with the thread's own balance, and with the count of calls. */
  predicate WordKept(e: Effect, e': Effect, t: nat) {
    && ThroughTheWord(e'.me)
    && (CanTake(e'.g, t) ==> WordSeen(e'.me, e'.w))
    && e'.w.outer - e'.me.balance == e.w.outer - e.me.balance
    && e'.w.outer - e'.h.enters + e'.h.leaves == e.w.outer - e.h.enters + e.h.leaves
  }

  lemma LockSideKeepsWord(cfg: Switches, e: Effect, t: nat)
    requires WordReady(cfg, e, t) && OnLockSide(e.me.pc)
    ensures WordKept(e, RoutineStep(cfg, e, t), t)
  {
    PcCases(e.me.pc);
  }

  lemma UnlockSideKeepsWord(cfg: Switches, e: Effect, t: nat)
    requires WordReady(cfg, e, t) && OnUnlockSide(e.me.pc)
    ensures WordKept(e, RoutineStep(cfg, e, t), t)
  {
    PcCases(e.me.pc);
  }

  lemma OuterSideKeepsWord(cfg: Switches, e: Effect, t: nat)
    requires WordReady(cfg, e, t) && OnOuterSide(e.me.pc)
    ensures WordKept(e, RoutineStep(cfg, e, t), t)
  {
    PcCases(e.me.pc);
  }

  lemma StepKeepsWord(cfg: Switches, e: Effect, t: nat, act: Act)
    requires cfg.outerRegion && LocalOk(cfg, e, t) && WordsOk(cfg, e.me, e.w) && ThroughTheWord(e.me)
    requires CanTake(e.g, t) ==> WordSeen(e.me, e.w)
    requires e.me.balance > 0 ==> e.w.outer > 0
    requires Enabled(cfg, e, t, act) && act != CallLock && act != CallUnlock
    requires act == CallLeave ==> e.me.balance > 0
    ensures WordKept(e, StepOf(cfg, e, t, act), t)
  {
    if act == Step {
      if OnLockSide(e.me.pc) {
        LockSideKeepsWord(cfg, e, t);
      } else if OnUnlockSide(e.me.pc) {
        UnlockSideKeepsWord(cfg, e, t);
      } else {
        OuterSideKeepsWord(cfg, e, t);
      }
    }
  }

  // ------------------------------------------------------------ whole runs

  predicate WordInv(s: State) {
    && (forall u :: 0 <= u < |s.th| ==> ThroughTheWord(s.th[u]))
    && (if s.g.owner == 0 then WordDecides(s.w)
        else s.g.owner <= |s.th| && WordSeen(s.th[s.g.owner - 1], s.w))
    && s.w.outer == Sum(Balances, s.th) == s.h.enters - s.h.leaves
  }

  lemma WordInvStart(s: State)
    requires AtRest(s)
    ensures WordInv(s)
  {
    SumZero(Balances, s.th);
  }

  /** A thread that holds no level sees the word from outside. */
  lemma SeenFromOutside(cfg: Switches, me: Thread, w: Words)
    requires cfg.outerRegion && ThreadOk(cfg, me) && ThroughTheWord(me) && me.depth == 0
    ensures WordSeen(me, w) <==> WordDecides(w)
  {
    PcCases(me.pc);
  }

  lemma BalanceIsInside(s: State, t: nat)
    requires WordInv(s) && t < |s.th|
    ensures s.th[t].balance > 0 ==> s.w.outer > 0
  {
    forall k | 0 <= k < |s.th|
      ensures Weight(Balances, s.th[k]) >= 0
    {
      assert ThroughTheWord(s.th[k]);
    }
    SumBounds(Balances, s.th, t);
  }

  lemma MoveKeepsWord(cfg: Switches, s: State, m: Move)
    requires cfg.outerRegion && Inv(cfg, s) && WordInv(s) && OuterMove(s, m) && CanDo(cfg, s, m)
    ensures var e := Before(s, m.who); WordKept(e, StepOf(cfg, e, m.who, m.act), m.who)
  {
    var t, e := m.who, Before(s, m.who);
    assert ThreadOk(cfg, s.th[t]) && s.th[t].depth == DueDepth(s.g, t);
    assert WordsOk(cfg, s.th[t], s.w) && ThroughTheWord(s.th[t]);
    BalanceIsInside(s, t);
    if s.g.owner == 0 {
      SeenFromOutside(cfg, s.th[t], s.w);
    }
    StepKeepsWord(cfg, e, t, m.act);
  }

  /** Whoever is inside afterwards, and everyone else, still sees the word as they should. */
  lemma DoKeepsSeen(cfg: Switches, s: State, m: Move)
    requires cfg.outerRegion && Inv(cfg, s) && WordInv(s) && CanDo(cfg, s, m)
    requires var e := Before(s, m.who); WordKept(e, StepOf(cfg, e, m.who, m.act), m.who)
    ensures var s' := Do(cfg, s, m);
            if s'.g.owner == 0 then WordDecides(s'.w)
            else s'.g.owner <= |s'.th| && WordSeen(s'.th[s'.g.owner - 1], s'.w)
  {
    var t, e := m.who, Before(s, m.who);
    assert ThreadOk(cfg, s.th[t]) && s.th[t].depth == DueDepth(s.g, t);
    StepKeepsGuard(cfg, e, t, m.act);
    var e' := StepOf(cfg, e, t, m.act);
    if !CanTake(s.g, t) {
      OutsiderTouchesNothing(cfg, e, t, m.act);
    } else if e'.g.owner == 0 {
      SeenFromOutside(cfg, e'.me, e'.w);
    }
  }

  lemma ApplyKeepsBalances(s: State, t: nat, e': Effect)
    requires t < |s.th| && WordInv(s) && WordKept(Before(s, t), e', t)
    ensures var s' := Apply(s, t, e');
            s'.w.outer == Sum(Balances, s'.th) == s'.h.enters - s'.h.leaves
  {
    SumApply(Balances, s, t, e');
  }

  lemma ApplyThroughTheWord(s: State, t: nat, e': Effect)
    requires t < |s.th| && ThroughTheWord(e'.me)
    requires forall u :: 0 <= u < |s.th| ==> ThroughTheWord(s.th[u])
    ensures var s' := Apply(s, t, e'); forall u :: 0 <= u < |s'.th| ==> ThroughTheWord(s'.th[u])
  {
    forall u | 0 <= u < |s.th|
      ensures ThroughTheWord(Apply(s, t, e').th[u])
    {
      assert ThroughTheWord(s.th[u]);
    }
  }

  lemma DoKeepsWord(cfg: Switches, s: State, m: Move)
    requires cfg.outerRegion && Inv(cfg, s) && WordInv(s) && OuterMove(s, m)
    ensures WordInv(Do(cfg, s, m))
  {
    if CanDo(cfg, s, m) {
      var t, e := m.who, Before(s, m.who);
      MoveKeepsWord(cfg, s, m);
      DoKeepsSeen(cfg, s, m);
      ApplyKeepsBalances(s, t, StepOf(cfg, e, t, m.act));
      ApplyThroughTheWord(s, t, StepOf(cfg, e, t, m.act));
    }
  }

  lemma {:induction false} WordAlways(cfg: Switches, s0: State, moves: seq<Move>)
    requires cfg.outerRegion && AtRest(s0) && OuterRun(cfg, s0, moves)
    ensures WordInv(Exec(cfg, s0, moves))
  {
    if moves == [] {
      WordInvStart(s0);
    } else {
      var k := |moves| - 1;
      WordAlways(cfg, s0, moves[..k]);
      AccountsAlways(cfg, s0, moves[..k]);
      DoKeepsWord(cfg, Exec(cfg, s0, moves[..k]), moves[k]);
    }
  }

  /** Is the thread between what its outer-word body read and what it makes of it? Queued
      for the guard, at the end of a wait, or past its own write it is not. */
  predicate InInnerWork(pc: Pc) {
    match pc
    case Idle => false
    case Entering(en) => en == OeLoad || en == OeStore
    case Leaving(_) => false
    case Waking(_) => false
    case _ => true
  }

  predicate OutsideInnerWork(s: State) {
    forall u :: 0 <= u < |s.th| ==> !InInnerWork(s.th[u].pc)
  }

  lemma SeenOutsideInnerWork(me: Thread, w: Words)
    requires WordSeen(me, w) && !InInnerWork(me.pc)
    ensures WordDecides(w)
  {
    PcCases(me.pc);
  }

  lemma InnerUnlockIsLetIn(cfg: Switches, s: State, t: nat)
    requires cfg.outerRegion && GuardInv(cfg, s) && WordInv(s) && t < |s.th| && s.th[t].pc == Admitting(UnEnter)
    ensures CanTake(s.g, t)
  {
    assert ThreadOk(cfg, s.th[t]) && s.th[t].depth == DueDepth(s.g, t) && ThroughTheWord(s.th[t]);
  }

  /** The outer word and the refcount. For any number of threads and any interleaving, with threads
      parked anywhere between their enter and their leave: the word counts the enters less
      the leaves, overall and thread by thread; the inner unlock is never refused; and
      while no thread is in inner work, whoever is queued or waiting, the refcount is 1
      exactly while the word is positive. */
  lemma OuterWordDecidesCount(cfg: Switches, s0: State, moves: seq<Move>)
    requires cfg.outerRegion && AtRest(s0) && OuterRun(cfg, s0, moves)
    ensures var s := Exec(cfg, s0, moves);
            && s.w.outer == s.h.enters - s.h.leaves == Sum(Balances, s.th)
            && (forall u :: 0 <= u < |s.th| && s.th[u].pc == Admitting(UnEnter) ==> CanTake(s.g, u))
            && (OutsideInnerWork(s) ==> s.w.outer >= 0 && s.w.count == if s.w.outer > 0 then 1 else 0)
  {
    WordAlways(cfg, s0, moves);
    AccountsAlways(cfg, s0, moves);
    var s := Exec(cfg, s0, moves);
    forall u | 0 <= u < |s.th| && s.th[u].pc == Admitting(UnEnter)
      ensures CanTake(s.g, u)
    {
      InnerUnlockIsLetIn(cfg, s, u);
    }
    if s.g.owner != 0 && OutsideInnerWork(s) {
      SeenOutsideInnerWork(s.th[s.g.owner - 1], s.w);
    }
  }

  /** A thread outside both outer-word bodies, queued at one or waking from a wait, say, is
      outside inner work. */
  lemma NotNestedIsOutside(cfg: Switches, me: Thread)
    requires ThreadOk(cfg, me) && ThroughTheWord(me) && !me.nested
    ensures !InInnerWork(me.pc)
  {
    PcCases(me.pc);
  }
}
