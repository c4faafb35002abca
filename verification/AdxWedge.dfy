/** What the window in the order of collection and acquisition comes to: with both fixes on,
    a run leads to a thread that the drop-all loop of sub_001437B0 never lowers. */
module AdxWedge {
  import opened AdxModel
  import opened AdxExclusion
  import opened AdxCalls
  import opened AdxRuns
  import opened AdxSpin
  import opened AdxPriority
  import opened AdxAccounts

  /** Back in its own code, elevated, and with nothing but the elevated value to go back to. */
  predicate Wedged(cfg: Switches, s: State) {
    && GuardInv(cfg, s) && |s.th| >= 2 && s.th[0].pc == Idle && s.th[0].prio == ELEVATED
    && s.g.owner == 1 && s.w.count == 1 && s.w.raiser == 0 && s.w.slot == ELEVATED
    && s.th[0].rec.held > 0 && s.th[0].rec.hasSaved && s.th[0].rec.saved == ELEVATED
  }

  /** The late lock saves the elevated value as its thread's own, and returns. */
  lemma LateLockWedges(cfg: Switches, s: State)
    requires LateQueued(cfg, s) && !cfg.collectWithTake
    ensures Wedged(cfg, Exec(cfg, s, Steps(0, 8)))
  {
    var e2 := TakeRuns(cfg, Before(s, 0), 0, 6);
    RaiseRuns(cfg, e2, 0, 6);
    StepsExec(cfg, s, 0, 8);
    ExclusionAlways(cfg, s, Steps(0, 8));
  }

  lemma WedgedNeverEnds(cfg: Switches, s: State)
    requires cfg.perThreadRestore && cfg.unmatchedSafe && Wedged(cfg, s)
    ensures SpinReady(cfg, See(Before(s, 0)), 0) && !SpinEnds(cfg, See(Before(s, 0)), 0)
  {
    assert s.th[0].depth == DueDepth(s.g, 0);
  }

  /** With both fixes on, from any two base priorities, some run ends with A in its own code,
      alone in the guard and still elevated, and no number of passes of the drop-all loop
      ever lowers it. */
  lemma SpinForeverIsReachable(cfg: Switches, s: State, p: int, q: int)
    requires cfg.perThreadRestore && cfg.unmatchedSafe && !cfg.collectWithTake && Opening(s, p, q)
    ensures exists moves ::
              var s' := Exec(cfg, s, moves);
              && Wedged(cfg, s')
              && forall n: nat :: Passes(cfg, See(Before(s', 0)), 0, n).prio == ELEVATED
  {
    var s4 := RaiserOwedWhileQueued(cfg, s, p, q);
    LateLockWedges(cfg, s4);
    var s5 := Exec(cfg, s4, Steps(0, 8));
    ReachesOn(cfg, s, s4, Steps(0, 8));
    WedgedNeverEnds(cfg, s5);
    forall n: nat
      ensures Passes(cfg, See(Before(s5, 0)), 0, n).prio == ELEVATED
    {
      SpinStuck(cfg, See(Before(s5, 0)), 0, n);
    }
  }

  /** Only a late lock leads there. With both fixes on, in every run of any number of threads
      in which no late lock has saved, a thread in its own code that the guard lets in is
      through the loop within `PassesLeft` passes, whatever it is owed and whatever the
      slot holds. */
  lemma SpinEndsUnlessLate(cfg: Switches, s0: State, moves: seq<Move>, t: nat)
    requires Both(cfg) && ValidStart(s0) && t < |s0.th|
    requires var s := Exec(cfg, s0, moves);
             |s.th| == |s0.th| && !s.h.savedLate && s.th[t].pc == Idle && CanTake(s.g, t)
    ensures var v := See(Before(Exec(cfg, s0, moves), t));
            && SpinReady(cfg, v, t) && SavedIsLow(v)
            && exists n :: 0 <= n <= PassesLeft(v) && Passes(cfg, v, t, n).prio != ELEVATED
  {
    var s := Exec(cfg, s0, moves);
    PrioAlways(cfg, s0, moves);
    AccountsAlways(cfg, s0, moves);
    assert PrioOk(s.th[t], t, s.w) && WordsOk(cfg, s.th[t], s.w);
    assert ThreadOk(cfg, s.th[t]) && s.th[t].depth == DueDepth(s.g, t);
    SpinExits(cfg, See(Before(s, t)), t);
  }
}
