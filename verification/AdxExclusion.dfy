/** Exclusion: with stealing off, the guard's bookkeeping is exact in every reachable
    state, a thread inside a body is alone there, and waiting for the guard never
    happens while holding a level of it. */
module AdxExclusion {
  import opened AdxModel

  /** Is the thread past taking the guard for a lock or unlock body, or for the end of a
      wait, and not yet done with it? These bodies are the only ones that touch the
      refcount, the slot and the raiser. */
  predicate InBody(pc: Pc) {
    match pc
    case Locking(lk) => lk == LkCounted
    case Admitting(ad) => ad == UnNote
    case Waking(wk) => wk == WkSet
    case _ => pc.Raising? || pc.Counting? || pc.Clamping? || pc.Dropping? || pc.Undoing?
  }

  predicate ThreadOk(cfg: Switches, me: Thread) {
    && me.region == (if cfg.outerRegion && me.nested then 1 else 0)
    && me.depth >= me.region + (if InBody(me.pc) then 1 else 0)
    && (me.pc.Entering? ==> me.nested == (me.pc.en != OeTake))
    && (me.pc.Leaving? ==> me.nested == (me.pc.le != OlTake))
    && (me.pc.Idle? || me.pc.Waking? ==> !me.nested)
    && (me.parked > 0 ==> me.inWait || me.pc.Waking?)
    && (me.pc.Waking? ==> me.parked > 0 && !me.inWait)
  }

  /** What the guard's own words say thread `u` must hold. */
  function DueDepth(g: Guard, u: nat): nat {
    if g.owner == u + 1 then g.depth else 0
  }

  predicate OwnerOk(s: State) {
    && s.g.owner <= |s.th|
    && (s.g.owner == 0 <==> s.g.depth == 0)
    && forall u :: 0 <= u < |s.th| ==> s.th[u].depth == DueDepth(s.g, u)
  }

  predicate GuardInv(cfg: Switches, s: State) {
    && OwnerOk(s)
    && forall u :: 0 <= u < |s.th| ==> ThreadOk(cfg, s.th[u])
  }

  lemma GuardInvStart(cfg: Switches, s: State)
    requires AtRest(s)
    ensures GuardInv(cfg, s)
  {}

  /** The guard's share of one thread's view being in order. */
  predicate LocalOk(cfg: Switches, e: Effect, t: nat) {
    && ThreadOk(cfg, e.me)
    && e.me.depth == DueDepth(e.g, t)
    && (e.g.owner == 0 <==> e.g.depth == 0)
  }

  /** What a step may do to the guard: nothing, or move its own level, and that only
      while nobody else is inside. */
  predicate GuardKept(cfg: Switches, e: Effect, e': Effect, t: nat) {
    && LocalOk(cfg, e', t)
    && ((e'.g.owner == e.g.owner && e'.g.depth == e.g.depth)
        || (CanTake(e.g, t) && (e'.g.owner == 0 || e'.g.owner == t + 1)))
  }

  lemma LockSideKeepsGuard(cfg: Switches, e: Effect, t: nat)
    requires LocalOk(cfg, e, t) && OnLockSide(e.me.pc) && Enabled(cfg, e, t, Step)
    ensures GuardKept(cfg, e, RoutineStep(cfg, e, t), t)
  {
    PcCases(e.me.pc);
  }

  lemma UnlockSideKeepsGuard(cfg: Switches, e: Effect, t: nat)
    requires LocalOk(cfg, e, t) && OnUnlockSide(e.me.pc) && Enabled(cfg, e, t, Step)
    ensures GuardKept(cfg, e, RoutineStep(cfg, e, t), t)
  {
    PcCases(e.me.pc);
  }

  lemma OuterSideKeepsGuard(cfg: Switches, e: Effect, t: nat)
    requires LocalOk(cfg, e, t) && OnOuterSide(e.me.pc) && Enabled(cfg, e, t, Step)
    ensures GuardKept(cfg, e, RoutineStep(cfg, e, t), t)
  {
    PcCases(e.me.pc);
  }

  lemma CallKeepsGuard(cfg: Switches, e: Effect, t: nat, act: Act)
    requires LocalOk(cfg, e, t) && act != Step && Enabled(cfg, e, t, act)
    ensures GuardKept(cfg, e, CallStep(e, t, act), t)
  {}

  lemma StepKeepsGuard(cfg: Switches, e: Effect, t: nat, act: Act)
    requires LocalOk(cfg, e, t) && Enabled(cfg, e, t, act)
    ensures GuardKept(cfg, e, StepOf(cfg, e, t, act), t)
  {
    if act != Step {
      CallKeepsGuard(cfg, e, t, act);
    } else if OnLockSide(e.me.pc) {
      LockSideKeepsGuard(cfg, e, t);
    } else if OnUnlockSide(e.me.pc) {
      UnlockSideKeepsGuard(cfg, e, t);
    } else {
      OuterSideKeepsGuard(cfg, e, t);
    }
  }

  lemma DoKeepsGuard(cfg: Switches, s: State, m: Move)
    requires GuardInv(cfg, s)
    ensures GuardInv(cfg, Do(cfg, s, m))
    ensures |Do(cfg, s, m).th| == |s.th|
  {
    if CanDo(cfg, s, m) {
      var t := m.who;
      var e := Before(s, t);
      assert ThreadOk(cfg, s.th[t]) && s.th[t].depth == DueDepth(s.g, t);
      StepKeepsGuard(cfg, e, t, m.act);
      var e' := StepOf(cfg, e, t, m.act);
      var s' := Do(cfg, s, m);
      forall u | 0 <= u < |s'.th|
        ensures ThreadOk(cfg, s'.th[u]) && s'.th[u].depth == DueDepth(s'.g, u)
      {
        assert ThreadOk(cfg, s.th[u]) && s.th[u].depth == DueDepth(s.g, u);
      }
    }
  }

  /** Exclusion holds in every state of every run. */
  lemma {:induction false} ExclusionAlways(cfg: Switches, s: State, moves: seq<Move>)
    requires GuardInv(cfg, s)
    ensures GuardInv(cfg, Exec(cfg, s, moves))
    ensures |Exec(cfg, s, moves).th| == |s.th|
  {
    if moves != [] {
      var k := |moves| - 1;
      ExclusionAlways(cfg, s, moves[..k]);
      DoKeepsGuard(cfg, Exec(cfg, s, moves[..k]), moves[k]);
    }
  }

  /** No two threads are ever past taking the guard at once, and the one that is holds
      exactly the nesting the guard records. */
  lemma OneInside(cfg: Switches, s: State, t: nat, u: nat)
    requires GuardInv(cfg, s) && t < |s.th| && u < |s.th|
    requires InBody(s.th[t].pc) && s.th[u].depth > 0
    ensures t == u && s.g.owner == t + 1 && s.th[t].depth == s.g.depth
  {
    assert ThreadOk(cfg, s.th[t]);
    assert s.th[t].depth == DueDepth(s.g, t) && s.th[u].depth == DueDepth(s.g, u);
  }

  /** The atomicity of a body, derived from the guard: while `t` is inside one, no move
      of any other thread touches `t`, any word of the guard, the refcount, the slot, the
      raiser or the ledger's sum, and with the region switch on none touches the outer
      word. */
  lemma BodyIsolated(cfg: Switches, s: State, t: nat, m: Move)
    requires GuardInv(cfg, s) && t < |s.th| && InBody(s.th[t].pc) && m.who != t
    ensures Do(cfg, s, m).th[t] == s.th[t] && Do(cfg, s, m).g == s.g
    ensures Do(cfg, s, m).w.(outer := s.w.outer) == s.w
    ensures cfg.outerRegion ==> Do(cfg, s, m).w.outer == s.w.outer
  {
    if CanDo(cfg, s, m) {
      assert ThreadOk(cfg, s.th[t]) && s.th[t].depth == DueDepth(s.g, t);
      assert ThreadOk(cfg, s.th[m.who]) && s.th[m.who].depth == DueDepth(s.g, m.who);
      OutsiderTouchesNothing(cfg, Before(s, m.who), m.who, m.act);
    }
  }

  /** What a thread can do while somebody else is inside. */
  lemma OutsiderTouchesNothing(cfg: Switches, e: Effect, t: nat, act: Act)
    requires LocalOk(cfg, e, t) && Enabled(cfg, e, t, act) && !CanTake(e.g, t) && e.owes == NO_RAISER
    ensures var e' := StepOf(cfg, e, t, act);
            && e'.w.(outer := e.w.outer) == e.w
            && (cfg.outerRegion ==> e'.w.outer == e.w.outer)
            && e'.owes == NO_RAISER
            && e'.g == e.g
  {
    PcCases(e.me.pc);
  }

  /** Is the thread queued for a guard that somebody else holds? */
  predicate Waits(cfg: Switches, s: State, t: nat)
    requires t < |s.th|
  {
    Queued(cfg, s.th[t]) && !CanTake(s.g, t)
  }

  /** No hold-and-wait: a thread that waits holds no level of the guard, the thread it
      waits for is another one, and that one is not waiting and has a move. So waiting
      chains have length one, there is no cycle of waits, and a free guard lets every
      queued thread in. */
  lemma NoHoldAndWait(cfg: Switches, s: State, t: nat)
    requires GuardInv(cfg, s) && t < |s.th| && Waits(cfg, s, t)
    ensures s.th[t].depth == 0 && s.th[t].region == 0
    ensures s.g.owner != 0
    ensures var u := s.g.owner - 1;
            && u < |s.th| && u != t && s.th[u].depth > 0
            && !Waits(cfg, s, u)
            && exists act :: Enabled(cfg, Before(s, u), u, act)
  {
    var u := s.g.owner - 1;
    assert ThreadOk(cfg, s.th[t]) && s.th[t].depth == DueDepth(s.g, t);
    assert s.th[u].depth == DueDepth(s.g, u);
    var act := if s.th[u].pc == Idle then CallLock else Step;
    assert Enabled(cfg, Before(s, u), u, act);
  }

  /** Steps a routine still needs, counting the calls it may yet make. */
  function StepsLeft(me: Thread): nat {
    var afterLock := if me.nested then 3 else 0;      // OeLoad, OeStore, OuterLeave
    var afterUnlock := if me.nested then 1 else 0;    // OuterLeave
    match me.pc
    case Idle => 0
    case Locking(lk) => afterLock + (match lk case LkCollect => 9 case LkTake => 8 case LkCounted => 7)
    case Raising(ra) => afterLock + (match ra case LkRead => 6 case LkRaise => 5 case LkSlot => 4)
    case Counting(co) => afterLock + (match co case LkLoad => 3 case LkStore => 2 case LkNote => 1)
    case Admitting(ad) => afterUnlock + (match ad case UnCollect => 10 case UnEnter => 9 case UnNote => 8)
    case Clamping(cl) => afterUnlock + (match cl case UnTest => 7 case UnClamp => 3 case UnRescue => 2)
    case Dropping(dr) => afterUnlock + (match dr case UnLoad => 6 case UnStore => 5 case UnZero => 4)
    case Undoing(un) => afterUnlock + (match un case UnOwe => 3 case UnSlot => 2 case UnLeave => 1)
    case Entering(en) => (match en case OeTake => 14 case OeRead => 13 case OeLoad => 3 case OeStore => 2)
    case Leaving(le) => (match le case OlTake => 14 case OlRead => 13 case OlStore => 12 case OuterLeave => 1)
    case Waking(wk) => (match wk case WkTake => 2 case WkSet => 1)
  }

  /** Every routine ends: each step it is let make brings it nearer to the guest's own
      code, so once admitted it needs at most 14 more. */
  lemma RoutinesEnd(cfg: Switches, e: Effect, t: nat)
    requires LocalOk(cfg, e, t) && e.me.pc != Idle && Enabled(cfg, e, t, Step)
    ensures StepsLeft(RoutineStep(cfg, e, t).me) < StepsLeft(e.me) <= 14
  {
    PcCases(e.me.pc);
    if OnLockSide(e.me.pc) {
      LockSideEnds(cfg, e, t);
    }
  }

  lemma LockSideEnds(cfg: Switches, e: Effect, t: nat)
    requires OnLockSide(e.me.pc)
    ensures StepsLeft(RoutineStep(cfg, e, t).me) < StepsLeft(e.me) <= 14
  {
    PcCases(e.me.pc);
  }
}
