/** What one whole call of an outer-word body does when nothing interleaves with it:
    sub_0013C460 and sub_0013C480 as plain functions, and the proof that a thread left to
    run its own steps computes exactly that, region level or not. */
module AdxOuterCalls {
  import opened AdxModel
  import opened AdxExclusion
  import opened AdxCalls

  /** Inside adx_guard_region_enter and past adx_guard_region_leave. */
  function InRegion(cfg: Switches, v: Seen, t: nat): Seen {
    if cfg.outerRegion
    then var v1 := Taken(v, t); v1.(region := v.region + 1, g := v1.g.(regions := v.g.regions + 1))
    else v
  }

  function PastRegion(cfg: Switches, v: Seen): Seen
    requires cfg.outerRegion ==> v.depth > 0 && v.region > 0
  {
    if cfg.outerRegion
    then var v1 := Given(v); v1.(region := v.region - 1, g := v1.g.(regions := v.g.regions - 1))
    else v
  }

  /** Inside a region level, with the guard its own. */
  predicate HoldsRegion(v: Seen, t: nat) {
    v.depth > 0 && v.region > 0 && v.g.owner == t + 1 && v.g.depth == v.depth
  }

  /** sub_0013C460 and sub_0013C480, as if there were no region level. */
  function OuterEntered(cfg: Switches, v: Seen, t: nat): Seen {
    var v1 := if v.w.outer == 0 then LockCall(cfg, v, t) else v;
    v1.(w := v1.w.(outer := v.w.outer + 1))
  }

  function OuterLeft(cfg: Switches, v: Seen, t: nat): Seen {
    var v1 := v.(w := v.w.(outer := v.w.outer - 1));
    if v.w.outer == 1 then UnlockCall(cfg, v1, t) else v1
  }

  /** A view with one region level more on top. */
  function Deeper(v: Seen, t: nat): Seen {
    v.(depth := v.depth + 1, region := v.region + 1,
       g := v.g.(owner := t + 1, depth := v.depth + 1, tsum := v.g.tsum + 1, regions := v.g.regions + 1))
  }

  /** A thread that the guard lets in is admitted alike inside a region level and outside. */
  lemma AdmittedDeeper(v: Seen, t: nat)
    requires Orderly(v, t) && CanTake(v.g, t)
    ensures !Refused(Deeper(v, t), t) && !Refused(v, t)
    ensures Admitted(Deeper(v, t), t) == Deeper(Admitted(v, t), t)
    ensures var a := Admitted(v, t); a.depth > 0 && a.g.owner == t + 1 && a.g.depth == a.depth
  {}

  lemma UndoneDeeper(cfg: Switches, v: Seen, t: nat)
    ensures Undone(cfg, Deeper(v, t), t) == Deeper(Undone(cfg, v, t), t)
    ensures var u := Undone(cfg, v, t); u.depth == v.depth && u.region == v.region && u.g == v.g
  {
    UndoneIgnoresGuard(cfg, v, t, Deeper(v, t).depth, Deeper(v, t).region, Deeper(v, t).g);
    UndoneIgnoresGuard(cfg, v, t, v.depth, v.region, v.g);
  }

  lemma GivenDeeper(cfg: Switches, v: Seen, t: nat)
    requires cfg.outerRegion && v.depth > 0 && v.g.owner == t + 1 && v.g.depth == v.depth
    ensures var v1 := Given(Deeper(v, t));
            HoldsRegion(v1, t) && PastRegion(cfg, v1) == Given(v)
  {}

  /** An unlock inside a region level does what it does outside one. */
  lemma RegionHidesNoUnlock(cfg: Switches, v: Seen, t: nat)
    requires cfg.outerRegion && Orderly(v, t) && CanTake(v.g, t)
    ensures var v1 := UnlockCall(cfg, InRegion(cfg, v, t), t);
            HoldsRegion(v1, t) && PastRegion(cfg, v1) == UnlockCall(cfg, v, t)
  {
    var p := Paid(cfg, v);
    assert InRegion(cfg, v, t) == Deeper(v, t) && Paid(cfg, Deeper(v, t)) == Deeper(p, t);
    AdmittedDeeper(p, t);
    UndoneDeeper(cfg, Admitted(p, t), t);
    GivenDeeper(cfg, Undone(cfg, Admitted(p, t), t), t);
  }

  /** ... nor does an outer-word body. */
  lemma RegionHidesNoLeave(cfg: Switches, v: Seen, t: nat)
    requires cfg.outerRegion && Orderly(v, t) && CanTake(v.g, t)
    ensures var v1 := OuterLeft(cfg, InRegion(cfg, v, t), t);
            HoldsRegion(v1, t) && PastRegion(cfg, v1) == OuterLeft(cfg, v, t)
  {
    var v1 := v.(w := v.w.(outer := v.w.outer - 1));
    assert InRegion(cfg, v1, t) == InRegion(cfg, v, t).(w := v1.w);
    RegionHidesNoUnlock(cfg, v1, t);
  }

  /** The same with the region switched off too, and without the thread left owed. */
  lemma LeaveHasNoTrace(cfg: Switches, v: Seen, t: nat)
    requires cfg.outerRegion ==> Orderly(v, t) && CanTake(v.g, t)
    ensures var v1, v2 := OuterLeft(cfg, InRegion(cfg, v, t), t), OuterLeft(cfg, v, t);
            && v1.owes == v2.owes && (cfg.outerRegion ==> HoldsRegion(v1, t))
            && PastRegion(cfg, v1.(owes := NO_RAISER)) == v2.(owes := NO_RAISER)
  {
    if cfg.outerRegion {
      RegionHidesNoLeave(cfg, v, t);
    }
  }

  lemma RegionHidesNoEnter(cfg: Switches, v: Seen, t: nat)
    requires cfg.outerRegion && Orderly(v, t) && CanTake(v.g, t)
    ensures var v1 := OuterEntered(cfg, InRegion(cfg, v, t), t);
            HoldsRegion(v1, t) && PastRegion(cfg, v1) == OuterEntered(cfg, v, t)
  {}

  // ------------------------------------------------------------ left alone

  /** With the region switch on, the region level the body took is there to give back. */
  predicate InsideRegion(cfg: Switches, e: Effect, t: nat) {
    cfg.outerRegion ==> Holding(e, t) && e.me.region > 0
  }

  /** The end both bodies share. */
  lemma LeavesRegion(cfg: Switches, e: Effect, t: nat, k: nat)
    requires e.me.pc == Leaving(OuterLeave) && InsideRegion(cfg, e, t) && k >= 1
    ensures var e' := RunFor(cfg, e, t, k);
            && e'.me.pc == Idle && !e'.me.nested && e'.me.balance == e.me.balance
            && See(e') == PastRegion(cfg, See(e))
  {
    var e1 := LeaveStep(cfg, e, t);
    assert RunFor(cfg, e, t, k) == RunFor(cfg, e1, t, k - 1);
  }

  /** The last three steps of an enter: the word counts it. */
  lemma WordCounts(cfg: Switches, e: Effect, t: nat, k: nat)
    requires e.me.pc == Entering(OeLoad) && InsideRegion(cfg, e, t) && k >= 3
    ensures var e', v := RunFor(cfg, e, t, k), See(e);
            && e'.me.pc == Idle && !e'.me.nested && e'.me.balance == e.me.balance + 1
            && See(e') == PastRegion(cfg, v.(w := v.w.(outer := v.w.outer + 1)))
  {
    var e2 := WordStored(cfg, e, t, k - 2);
    LeavesRegion(cfg, e2, t, k - 2);
  }

  lemma WordStored(cfg: Switches, e: Effect, t: nat, k: nat) returns (e2: Effect)
    requires e.me.pc == Entering(OeLoad)
    ensures RunFor(cfg, e, t, k + 2) == RunFor(cfg, e2, t, k)
    ensures e2.me.pc == Leaving(OuterLeave) && e2.me.balance == e.me.balance + 1
    ensures var v := See(e); See(e2) == v.(w := v.w.(outer := v.w.outer + 1))
  {
    var e1 := EnterStep(cfg, e, t);
    assert RunFor(cfg, e, t, k + 2) == RunFor(cfg, e1, t, k + 1);
    e2 := EnterStep(cfg, e1, t);
    assert RunFor(cfg, e1, t, k + 1) == RunFor(cfg, e2, t, k);
  }

  /** The first two steps of an enter: it is inside the region, and has read the word. */
  lemma EnterBegins(cfg: Switches, e: Effect, t: nat, k: nat) returns (e2: Effect)
    requires LocalOk(cfg, e, t) && e.me.pc == Entering(OeTake) && (cfg.outerRegion ==> CanTake(e.g, t))
    ensures RunFor(cfg, e, t, k + 2) == RunFor(cfg, e2, t, k)
    ensures e2.me.nested && e2.me.balance == e.me.balance && See(e2) == InRegion(cfg, See(e), t)
    ensures InsideRegion(cfg, e2, t)
    ensures e2.me.pc == if e.w.outer == 0 then Locking(LkCollect) else Entering(OeLoad)
  {
    var e1 := EnterStep(cfg, e, t);
    assert RunFor(cfg, e, t, k + 2) == RunFor(cfg, e1, t, k + 1);
    e2 := EnterStep(cfg, e1, t);
    assert RunFor(cfg, e1, t, k + 1) == RunFor(cfg, e2, t, k);
  }

  /** The lock inside an enter. */
  lemma EnterLocks(cfg: Switches, e: Effect, t: nat, k: nat) returns (e2: Effect)
    requires e.me.pc == Locking(LkCollect) && e.me.nested && CanTake(e.g, t) && k >= 3
    requires InsideRegion(cfg, e, t)
    ensures e2.me.pc == Entering(OeLoad) && SameCall(e.me, e2.me) && See(e2) == LockCall(cfg, See(e), t)
    ensures InsideRegion(cfg, e2, t)
    ensures RunFor(cfg, e2, t, k).me.pc == Idle ==> RunFor(cfg, e, t, k + 9) == RunFor(cfg, e2, t, k)
  {
    var e1 := LockTakes(cfg, e, t, k + 6);
    e2 := RaisesThen(cfg, e1, t, 6, k);
  }

  /** Left alone, an enter computes `OuterEntered` and returns, within fourteen steps. */
  lemma EnterRuns(cfg: Switches, e: Effect, t: nat, k: nat)
    requires CanCall(cfg, e, t) && k >= 14
    requires cfg.outerRegion || e.w.outer == 0 ==> CanTake(e.g, t)
    ensures var e' := RunFor(cfg, CallStep(e, t, CallEnter), t, k);
            && e'.me.pc == Idle && !e'.me.nested && e'.me.balance == e.me.balance + 1
            && See(e') == OuterEntered(cfg, See(e), t)
  {
    var e2 := EnterBegins(cfg, CallStep(e, t, CallEnter), t, k - 2);
    if cfg.outerRegion {
      RegionHidesNoEnter(cfg, See(e), t);
    }
    EnterEnds(cfg, e2, t, k - 2);
  }

  lemma EnterEnds(cfg: Switches, e: Effect, t: nat, k: nat)
    requires e.me.nested && InsideRegion(cfg, e, t) && k >= 12
    requires e.me.pc == if e.w.outer == 0 then Locking(LkCollect) else Entering(OeLoad)
    requires e.w.outer == 0 ==> CanTake(e.g, t)
    ensures var e' := RunFor(cfg, e, t, k);
            && e'.me.pc == Idle && !e'.me.nested && e'.me.balance == e.me.balance + 1
            && See(e') == PastRegion(cfg, OuterEntered(cfg, See(e), t))
  {
    if e.w.outer == 0 {
      var e1 := EnterLocks(cfg, e, t, k - 9);
      WordCounts(cfg, e1, t, k - 9);
    } else {
      WordCounts(cfg, e, t, k);
    }
  }

  /** The first three steps of a leave: it is inside the region, and has taken one off the
      word. */
  lemma LeaveBegins(cfg: Switches, e: Effect, t: nat, k: nat) returns (e3: Effect)
    requires LocalOk(cfg, e, t) && e.me.pc == Leaving(OlTake) && (cfg.outerRegion ==> CanTake(e.g, t))
    ensures RunFor(cfg, e, t, k + 3) == RunFor(cfg, e3, t, k)
    ensures e3.me.nested && e3.me.balance == e.me.balance - 1 && e3.owes == e.owes
    ensures var v := InRegion(cfg, See(e), t); See(e3) == v.(w := v.w.(outer := v.w.outer - 1))
    ensures InsideRegion(cfg, e3, t) && LocalOk(cfg, e3, t)
    ensures e3.me.pc == if e.w.outer == 1 then Admitting(UnCollect) else Leaving(OuterLeave)
  {
    var e1 := LeaveStep(cfg, e, t);
    assert RunFor(cfg, e, t, k + 3) == RunFor(cfg, e1, t, k + 2);
    e3 := WordDrops(cfg, e1, t, k);
  }

  lemma WordDrops(cfg: Switches, e: Effect, t: nat, k: nat) returns (e2: Effect)
    requires e.me.pc == Leaving(OlRead)
    ensures RunFor(cfg, e, t, k + 2) == RunFor(cfg, e2, t, k)
    ensures var pc := if e.w.outer == 1 then Admitting(UnCollect) else Leaving(OuterLeave);
            && e2 == e.(me := e2.me, w := e.w.(outer := e.w.outer - 1), h := e2.h)
            && e2.me == e.me.(pc := pc, tmp := e.w.outer - 1, balance := e.me.balance - 1)
  {
    var e1 := LeaveStep(cfg, e, t);
    assert RunFor(cfg, e, t, k + 2) == RunFor(cfg, e1, t, k + 1);
    e2 := LeaveStep(cfg, e1, t);
    assert RunFor(cfg, e1, t, k + 1) == RunFor(cfg, e2, t, k);
  }

  /** The unlock inside a leave. */
  lemma LeaveUnlocks(cfg: Switches, e: Effect, t: nat, k: nat) returns (e2: Effect)
    requires LocalOk(cfg, e, t) && e.me.pc == Admitting(UnCollect) && e.me.nested && e.owes == NO_RAISER
    requires InsideRegion(cfg, e, t) && k >= 1
    ensures e2.me.pc == Leaving(OuterLeave) && SameCall(e.me, e2.me) && See(e2) == UnlockCall(cfg, See(e), t)
    ensures RunFor(cfg, e2, t, k).me.pc == Idle ==> RunFor(cfg, e, t, k + 10) == RunFor(cfg, e2, t, k)
  {
    var e1 := AdmitRuns(cfg, e, t, k + 8);
    e2 := AdmittedThen(cfg, e1, t, k, Paid(cfg, See(e)));
  }

  /** ... once it has collected, which leaves the view `v`, and is let in or refused. */
  lemma AdmittedThen(cfg: Switches, e: Effect, t: nat, k: nat, v: Seen) returns (e1: Effect)
    requires e.me.nested && e.owes == NO_RAISER
    requires if Refused(v, t) then e.me.pc == Leaving(OuterLeave) && See(e) == v
             else e.me.pc == Admitting(UnNote) && See(e) == Admitted(v, t) && Holding(e, t)
    ensures e1.me.pc == Leaving(OuterLeave) && SameCall(e.me, e1.me)
    ensures See(e1) == if Refused(v, t) then v else Given(Undone(cfg, Admitted(v, t), t))
    ensures RunFor(cfg, e1, t, k).me.pc == Idle ==> RunFor(cfg, e, t, k + 8) == RunFor(cfg, e1, t, k)
  {
    if Refused(v, t) {
      e1 := e;
      MoreIfDone(cfg, e, t, k, 8);
    } else {
      e1 := UndoesThen(cfg, e, t, 8, k);
    }
  }

  lemma MoreIfDone(cfg: Switches, e: Effect, t: nat, k: nat, n: nat)
    ensures RunFor(cfg, e, t, k).me.pc == Idle ==> RunFor(cfg, e, t, k + n) == RunFor(cfg, e, t, k)
  {
    if RunFor(cfg, e, t, k).me.pc == Idle {
      RunMore(cfg, e, t, k, n);
    }
  }

  /** An admitted unlock inside a leave. */
  lemma UndoesThen(cfg: Switches, e: Effect, t: nat, n: nat, k: nat) returns (e1: Effect)
    requires e.me.pc == Admitting(UnNote) && e.me.nested && e.owes == NO_RAISER && Holding(e, t) && n >= 8
    ensures e1.me.pc == Leaving(OuterLeave) && SameCall(e.me, e1.me) && See(e1) == Given(Undone(cfg, See(e), t))
    ensures RunFor(cfg, e1, t, k).me.pc == Idle ==> RunFor(cfg, e, t, k + n) == RunFor(cfg, e1, t, k)
  {
    UndoneBody(cfg, e, t, n);
    e1 := BodyFor(cfg, e, t, n);
    if RunFor(cfg, e1, t, k).me.pc == Idle {
      RunsThrough(cfg, e, t, n, k);
    }
  }

  lemma RaisesThen(cfg: Switches, e: Effect, t: nat, n: nat, k: nat) returns (e1: Effect)
    requires e.me.pc == Raising(LkRead) && e.me.nested && n >= 6
    ensures e1.me.pc == Entering(OeLoad) && SameCall(e.me, e1.me) && See(e1) == Counted(See(e), t)
    ensures RunFor(cfg, e1, t, k).me.pc == Idle ==> RunFor(cfg, e, t, k + n) == RunFor(cfg, e1, t, k)
  {
    RaiseBody(cfg, e, t, n);
    e1 := BodyFor(cfg, e, t, n);
    if RunFor(cfg, e1, t, k).me.pc == Idle {
      RunsThrough(cfg, e, t, n, k);
    }
  }

  /** Left alone, a leave computes `OuterLeft` and returns, within fourteen steps. */
  lemma LeaveRuns(cfg: Switches, e: Effect, t: nat, k: nat)
    requires CanCall(cfg, e, t) && e.owes == NO_RAISER && k >= 14
    requires cfg.outerRegion ==> CanTake(e.g, t)
    ensures var e' := RunFor(cfg, CallStep(e, t, CallLeave), t, k);
            && e'.me.pc == Idle && !e'.me.nested && e'.me.balance == e.me.balance - 1
            && See(e') == OuterLeft(cfg, See(e), t)
  {
    var e3 := LeaveBegins(cfg, CallStep(e, t, CallLeave), t, k - 3);
    if cfg.outerRegion {
      RegionHidesNoLeave(cfg, See(e), t);
    }
    LeaveEnds(cfg, e3, t, k - 3);
  }

  lemma LeaveEnds(cfg: Switches, e: Effect, t: nat, k: nat)
    requires LocalOk(cfg, e, t) && e.me.nested && e.owes == NO_RAISER && InsideRegion(cfg, e, t) && k >= 11
    requires e.me.pc == Admitting(UnCollect) || e.me.pc == Leaving(OuterLeave)
    requires var v := See(e);
             var v1 := if e.me.pc == Leaving(OuterLeave) then v else UnlockCall(cfg, v, t);
             cfg.outerRegion ==> HoldsRegion(v1, t)
    ensures var e', v := RunFor(cfg, e, t, k), See(e);
            var v1 := if e.me.pc == Leaving(OuterLeave) then v else UnlockCall(cfg, v, t);
            && e'.me.pc == Idle && !e'.me.nested && e'.me.balance == e.me.balance
            && See(e') == PastRegion(cfg, v1)
  {
    if e.me.pc == Leaving(OuterLeave) {
      LeavesRegion(cfg, e, t, k);
    } else {
      var e1 := LeaveUnlocks(cfg, e, t, k - 10);
      LeavesRegion(cfg, e1, t, k - 10);
    }
  }

  // ------------------------------------------------------------ as part of a run

  function EnterMoves(t: nat): seq<Move> { [Move(t, CallEnter)] + Steps(t, 14) }

  function LeaveMoves(t: nat): seq<Move> { [Move(t, CallLeave)] + Steps(t, 14) }

  /** A whole enter in a run. */
  lemma EnterInRun(cfg: Switches, s: State, t: nat)
    requires CallReady(cfg, s, t)
    requires cfg.outerRegion || s.w.outer == 0 ==> CanTake(s.g, t)
    ensures var s' := Exec(cfg, s, EnterMoves(t));
            && GuardInv(cfg, s') && |s'.th| == |s.th|
            && s'.th[t].pc == Idle && s'.th[t].balance == s.th[t].balance + 1
            && See(Before(s', t)) == OuterEntered(cfg, See(Before(s, t)), t)
            && forall u :: 0 <= u < |s.th| && u != t ==> s'.th[u] == s.th[u]
  {
    CallReadyOk(cfg, s, t);
    CallInRun(cfg, s, t, CallEnter, 14);
    EnterRuns(cfg, Before(s, t), t, 14);
  }

  /** A whole leave in a run. */
  lemma LeaveInRun(cfg: Switches, s: State, t: nat)
    requires CallReady(cfg, s, t) && (cfg.outerRegion ==> CanTake(s.g, t))
    ensures var s', v := Exec(cfg, s, LeaveMoves(t)), OuterLeft(cfg, See(Before(s, t)), t);
            && GuardInv(cfg, s') && |s'.th| == |s.th|
            && s'.th[t].pc == Idle && s'.th[t].balance == s.th[t].balance - 1
            && See(Before(s', t)) == v.(owes := NO_RAISER)
            && v.owes != t
            && forall u :: 0 <= u < |s.th| && u != t ==>
                 s'.th[u] == if u == v.owes then MakeOwed(s.th[u]) else s.th[u]
  {
    CallReadyOk(cfg, s, t);
    CallInRun(cfg, s, t, CallLeave, 14);
    LeaveRuns(cfg, Before(s, t), t, 14);
  }
}
