/** What the guard's nesting has to do with the refcount, in every run: outside bodies the
    levels held and parked are the refcount, with the unlocks that borrowed a level added,
    those that undid nothing taken away, and the levels that ends of waits overwrote. The
    guard under CRI's outer word follows from it. */
module AdxLevels {
  import opened AdxModel
  import opened AdxSums
  import opened AdxExclusion
  import opened AdxAccounts
  import opened AdxOuterWord

  /** An unlock that is let in with no level of its own above the region levels: it borrows
      one for its body and gives that one back. */
  predicate Borrows(e: Effect, t: nat, act: Act) {
    act == Step && e.me.pc == Admitting(UnEnter) && e.me.depth <= e.me.region && CanTake(e.g, t)
  }

  /** An unlock that finds the refcount at 0 and undoes nothing. */
  predicate Clamps(e: Effect, act: Act) {
    act == Step && e.me.pc == Clamping(UnClamp)
  }

  function OneIf(b: bool): nat { if b then 1 else 0 }

  /** How many unlocks of a run borrowed, and how many undid nothing. */
  function BorrowsIn(cfg: Switches, s0: State, moves: seq<Move>): nat {
    if moves == [] then 0
    else
      var k := |moves| - 1;
      BorrowsIn(cfg, s0, moves[..k]) + Borrowed(cfg, Exec(cfg, s0, moves[..k]), moves[k])
  }

  function ClampsIn(cfg: Switches, s0: State, moves: seq<Move>): nat {
    if moves == [] then 0
    else
      var k := |moves| - 1;
      ClampsIn(cfg, s0, moves[..k]) + Clamped(cfg, Exec(cfg, s0, moves[..k]), moves[k])
  }

  function Borrowed(cfg: Switches, s: State, m: Move): nat {
    OneIf(CanDo(cfg, s, m) && Borrows(Before(s, m.who), m.who, m.act))
  }

  function Clamped(cfg: Switches, s: State, m: Move): nat {
    OneIf(CanDo(cfg, s, m) && Clamps(Before(s, m.who), m.act))
  }

  // ------------------------------------------------------------ one step

  /** How far the lock counters are ahead of the refcount. */
  function Ahead(g: Guard, w: Words): int { g.locks - g.unlocksMatched - w.count }

  predicate DueKept(e: Effect, e': Effect, t: nat, act: Act) {
    Ahead(e'.g, e'.w) - Due(e'.me) ==
    Ahead(e.g, e.w) - Due(e.me) + OneIf(Borrows(e, t, act)) - OneIf(Clamps(e, act))
  }

  lemma LockSideDue(cfg: Switches, e: Effect, t: nat)
    requires Ready(cfg, e, t) && OnLockSide(e.me.pc)
    ensures DueKept(e, RoutineStep(cfg, e, t), t, Step)
  {
    PcCases(e.me.pc);
  }

  lemma AdmitDue(cfg: Switches, e: Effect, t: nat)
    requires Ready(cfg, e, t) && e.me.pc.Admitting?
    ensures DueKept(e, RoutineStep(cfg, e, t), t, Step)
  {
    PcCases(e.me.pc);
  }

  lemma UnlockSideDue(cfg: Switches, e: Effect, t: nat)
    requires Ready(cfg, e, t) && OnUnlockSide(e.me.pc) && !e.me.pc.Admitting?
    ensures DueKept(e, RoutineStep(cfg, e, t), t, Step)
  {
    PcCases(e.me.pc);
  }

  lemma OuterSideDue(cfg: Switches, e: Effect, t: nat)
    requires Ready(cfg, e, t) && OnOuterSide(e.me.pc)
    ensures DueKept(e, RoutineStep(cfg, e, t), t, Step)
  {
    PcCases(e.me.pc);
  }

  lemma StepDue(cfg: Switches, e: Effect, t: nat, act: Act)
    requires LocalOk(cfg, e, t) && WordsOk(cfg, e.me, e.w) && Enabled(cfg, e, t, act)
    ensures DueKept(e, StepOf(cfg, e, t, act), t, act)
  {
    if act == Step {
      if OnLockSide(e.me.pc) {
        LockSideDue(cfg, e, t);
      } else if e.me.pc.Admitting? {
        AdmitDue(cfg, e, t);
      } else if OnUnlockSide(e.me.pc) {
        UnlockSideDue(cfg, e, t);
      } else {
        OuterSideDue(cfg, e, t);
      }
    }
  }

  // ------------------------------------------------------------ whole runs

  lemma DoMovesDue(cfg: Switches, s: State, m: Move)
    requires Inv(cfg, s)
    ensures var s' := Do(cfg, s, m);
            Ahead(s'.g, s'.w) - Sum(Dues, s'.th) ==
            Ahead(s.g, s.w) - Sum(Dues, s.th) + Borrowed(cfg, s, m) - Clamped(cfg, s, m)
  {
    if CanDo(cfg, s, m) {
      var t, e := m.who, Before(s, m.who);
      assert ThreadOk(cfg, s.th[t]) && s.th[t].depth == DueDepth(s.g, t) && WordsOk(cfg, s.th[t], s.w);
      StepDue(cfg, e, t, m.act);
      SumApply(Dues, s, t, StepOf(cfg, e, t, m.act));
    }
  }

  lemma {:induction false} DuesAlways(cfg: Switches, s0: State, moves: seq<Move>)
    requires AtRest(s0)
    ensures var s := Exec(cfg, s0, moves);
            Ahead(s.g, s.w) == Sum(Dues, s.th) + BorrowsIn(cfg, s0, moves) - ClampsIn(cfg, s0, moves)
  {
    if moves == [] {
      SumZero(Dues, s0.th);
    } else {
      var k := |moves| - 1;
      DuesAlways(cfg, s0, moves[..k]);
      AccountsAlways(cfg, s0, moves[..k]);
      DoMovesDue(cfg, Exec(cfg, s0, moves[..k]), moves[k]);
    }
  }

  lemma NothingUnderWay(th: seq<Thread>)
    requires forall u :: 0 <= u < |th| ==> !InBody(th[u].pc)
    ensures Sum(Dues, th) == Sum(Flights, th) == 0
  {
    forall k | 0 <= k < |th|
      ensures Weight(Dues, th[k]) == Weight(Flights, th[k]) == 0
    {
      PcCases(th[k].pc);
    }
    SumZero(Dues, th);
    SumZero(Flights, th);
  }

  /** Where every level is, for any schedule of any traffic: outside bodies, the levels held
      or parked beyond the region levels, and those lost to waits, are as many as the
      refcount and the unlocks that borrowed, less the unlocks that undid nothing. */
  lemma LevelsAreCounted(cfg: Switches, s0: State, moves: seq<Move>)
    requires AtRest(s0) && OutsideBodies(Exec(cfg, s0, moves))
    ensures var s := Exec(cfg, s0, moves);
            Live(s.g) + s.g.lost == s.w.count + BorrowsIn(cfg, s0, moves) - ClampsIn(cfg, s0, moves)
  {
    DuesAlways(cfg, s0, moves);
    AccountsAlways(cfg, s0, moves);
    NothingUnderWay(Exec(cfg, s0, moves).th);
  }

  // ------------------------------------------------------------ under the outer word

  /** No unlock of an outer-word body undoes nothing. */
  lemma {:induction false} OuterNeverClamps(cfg: Switches, s0: State, moves: seq<Move>)
    requires cfg.outerRegion && AtRest(s0) && OuterRun(cfg, s0, moves)
    ensures ClampsIn(cfg, s0, moves) == 0
  {
    if moves != [] {
      var k := |moves| - 1;
      OuterNeverClamps(cfg, s0, moves[..k]);
      WordAlways(cfg, s0, moves[..k]);
      AccountsAlways(cfg, s0, moves[..k]);
      NoClampNow(cfg, Exec(cfg, s0, moves[..k]), moves[k]);
    }
  }

  lemma NoClampNow(cfg: Switches, s: State, m: Move)
    requires Inv(cfg, s) && WordInv(s)
    ensures Clamped(cfg, s, m) == 0
  {
    if CanDo(cfg, s, m) {
      assert ThreadOk(cfg, s.th[m.who]) && s.th[m.who].depth == DueDepth(s.g, m.who);
    }
  }

  /** Is every thread in its own code? */
  predicate BetweenCalls(s: State) {
    forall u :: 0 <= u < |s.th| ==> s.th[u].pc == Idle
  }

  /** Does no thread hold or have parked a level of the guard? */
  predicate NoLevels(s: State) {
    forall u :: 0 <= u < |s.th| ==> s.th[u].depth == 0 && s.th[u].parked == 0
  }

  /** Nothing held and nothing parked is what the sums say. */
  lemma NoLevelsExactly(cfg: Switches, s: State)
    requires Inv(cfg, s) && BetweenCalls(s)
    ensures Live(s.g) >= 0 && (NoLevels(s) <==> Live(s.g) == 0)
  {
    forall u | 0 <= u < |s.th|
      ensures Weight(Regions, s.th[u]) == 0
    {
      assert ThreadOk(cfg, s.th[u]);
    }
    SumZero(Regions, s.th);
    SumNonNegative(Depths, s.th);
    SumNonNegative(Parks, s.th);
    if NoLevels(s) {
      SumZero(Depths, s.th);
      SumZero(Parks, s.th);
    } else {
      var u :| 0 <= u < |s.th| && (s.th[u].depth != 0 || s.th[u].parked != 0);
      SumBounds(Depths, s.th, u);
      SumBounds(Parks, s.th, u);
    }
  }

  lemma SumNonNegative(a: Account, th: seq<Thread>)
    requires forall k :: 0 <= k < |th| ==> Weight(a, th[k]) >= 0
    ensures Sum(a, th) >= 0
  {
    if |th| > 0 {
      SumBounds(a, th, 0);
    }
  }

  /** The guard under the outer word, exactly. For any number of threads and any
      interleaving, between calls: the levels held or parked, and those lost, are one for a
      positive word, and one for every last leave that had no level of its own to give
      back. So once the word is 0 and nothing was lost, the guard is entirely given up if
      and only if no last leave was made by such a thread. */
  lemma GuardUnderTheWord(cfg: Switches, s0: State, moves: seq<Move>)
    requires cfg.outerRegion && AtRest(s0) && OuterRun(cfg, s0, moves) && BetweenCalls(Exec(cfg, s0, moves))
    ensures var s, borrowed := Exec(cfg, s0, moves), BorrowsIn(cfg, s0, moves);
            && Live(s.g) + s.g.lost == OneIf(s.w.outer > 0) + borrowed
            && (s.w.outer == 0 && s.g.lost == 0 ==> (NoLevels(s) <==> borrowed == 0))
  {
    var s := Exec(cfg, s0, moves);
    LevelsAreCounted(cfg, s0, moves);
    OuterNeverClamps(cfg, s0, moves);
    OuterWordDecidesCount(cfg, s0, moves);
    AccountsAlways(cfg, s0, moves);
    NoLevelsExactly(cfg, s);
  }
}
