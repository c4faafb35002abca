/** Atomicity of the lock and unlock bodies under every schedule: whatever moves of other
    threads lie between a body's own steps, the body computes the whole-call functions of
    `AdxCalls` on what it saw when it was let in. */
module AdxAtomic {
  import opened AdxModel
  import opened AdxExclusion
  import opened AdxCalls

  /** Thread `t` and what it shares with its own undisturbed run: all but the outer word,
      which only the region switch protects. */
  predicate Matches(me: Thread, g: Guard, w: Words, e: Effect) {
    me == e.me && g == e.g && w.(outer := e.w.outer) == e.w
  }

  /** A step of a body neither reads nor writes the outer word. */
  lemma StepIgnoresWord(cfg: Switches, e: Effect, f: Effect, t: nat)
    requires InBody(e.me.pc) && Matches(f.me, f.g, f.w, e)
    ensures var e', f' := RoutineStep(cfg, e, t), RoutineStep(cfg, f, t);
            Matches(f'.me, f'.g, f'.w, e') && e'.w.outer == e.w.outer && f'.w.outer == f.w.outer
  {
    PcCases(e.me.pc);
  }

  lemma StepOwesOther(cfg: Switches, e: Effect, t: nat)
    requires InBody(e.me.pc) && e.owes == NO_RAISER
    ensures RoutineStep(cfg, e, t).owes != t
  {
    PcCases(e.me.pc);
  }

  lemma {:induction false} BodyNext(cfg: Switches, e: Effect, t: nat, n: nat)
    requires InBody(BodyFor(cfg, e, t, n).me.pc)
    ensures BodyFor(cfg, e, t, n + 1) == RoutineStep(cfg, BodyFor(cfg, e, t, n), t)
    decreases n
  {
    if n > 0 && InBody(e.me.pc) {
      BodyNext(cfg, RoutineStep(cfg, e, t), t, n - 1);
    }
  }

  /** Once a body is over, more steps of it change nothing. */
  lemma {:induction false} BodySettles(cfg: Switches, e: Effect, t: nat, n: nat, k: nat)
    requires !InBody(BodyFor(cfg, e, t, n).me.pc) && !InBody(BodyFor(cfg, e, t, k).me.pc)
    ensures BodyFor(cfg, e, t, n) == BodyFor(cfg, e, t, k)
    decreases n
  {
    if n > 0 && k > 0 && InBody(e.me.pc) {
      BodySettles(cfg, RoutineStep(cfg, e, t), t, n - 1, k - 1);
    }
  }

  /** How many of the moves are steps of `t`. */
  function OwnSteps(moves: seq<Move>, t: nat): nat {
    if moves == [] then 0
    else
      var k := |moves| - 1;
      OwnSteps(moves[..k], t) + if moves[k] == Move(t, Step) then 1 else 0
  }

  /** Is `t` inside its body before every one of the moves? */
  predicate StaysIn(cfg: Switches, s: State, moves: seq<Move>, t: nat) {
    moves == [] ||
    (var k := |moves| - 1;
     var p := Exec(cfg, s, moves[..k]);
     StaysIn(cfg, s, moves[..k], t) && t < |p.th| && InBody(p.th[t].pc))
  }

  /** One move among those of a body. */
  lemma BodyMove(cfg: Switches, p: State, m: Move, t: nat, e: Effect)
    requires GuardInv(cfg, p) && t < |p.th| && InBody(p.th[t].pc) && Matches(p.th[t], p.g, p.w, e)
    ensures var e' := if m == Move(t, Step) then RoutineStep(cfg, e, t) else e;
            var p' := Do(cfg, p, m);
            && |p'.th| == |p.th| && Matches(p'.th[t], p'.g, p'.w, e') && e'.w.outer == e.w.outer
            && (cfg.outerRegion ==> p'.w.outer == p.w.outer)
  {
    if m == Move(t, Step) {
      PcCases(p.th[t].pc);
      StepIgnoresWord(cfg, e, Before(p, t), t);
      StepOwesOther(cfg, Before(p, t), t);
    } else if m.who != t {
      BodyIsolated(cfg, p, t, m);
    }
  }

  /** Under any schedule a body is where its own undisturbed run would be. */
  lemma {:induction false} BodyKeepsPace(cfg: Switches, s: State, moves: seq<Move>, t: nat)
    requires GuardInv(cfg, s) && t < |s.th| && StaysIn(cfg, s, moves, t)
    ensures var s', e := Exec(cfg, s, moves), BodyFor(cfg, Before(s, t), t, OwnSteps(moves, t));
            && GuardInv(cfg, s') && |s'.th| == |s.th| && Matches(s'.th[t], s'.g, s'.w, e)
            && e.w.outer == s.w.outer && (cfg.outerRegion ==> s'.w.outer == s.w.outer)
  {
    if moves != [] {
      var k := |moves| - 1;
      BodyKeepsPace(cfg, s, moves[..k], t);
      var p, n := Exec(cfg, s, moves[..k]), OwnSteps(moves[..k], t);
      var e := BodyFor(cfg, Before(s, t), t, n);
      BodyMove(cfg, p, moves[k], t, e);
      BodyNext(cfg, Before(s, t), t, n);
      DoKeepsGuard(cfg, p, moves[k]);
    }
  }

  /** The moves of a whole body: its thread is inside until the last of them, and then out. */
  predicate WholeBody(cfg: Switches, s: State, moves: seq<Move>, t: nat) {
    var s' := Exec(cfg, s, moves);
    StaysIn(cfg, s, moves, t) && t < |s'.th| && !InBody(s'.th[t].pc)
  }

  /** A view with whatever the outer word has become, and no thread to be told. */
  function Aside(v: Seen, outer: int): Seen {
    v.(w := v.w.(outer := outer), owes := NO_RAISER)
  }

  lemma BodyEnds(cfg: Switches, s: State, moves: seq<Move>, t: nat, k: nat)
    requires GuardInv(cfg, s) && t < |s.th| && WholeBody(cfg, s, moves, t)
    requires !InBody(BodyFor(cfg, Before(s, t), t, k).me.pc)
    ensures var s', e := Exec(cfg, s, moves), BodyFor(cfg, Before(s, t), t, k);
            && s'.th[t] == e.me && See(Before(s', t)) == Aside(See(e), s'.w.outer)
            && (cfg.outerRegion ==> s'.w.outer == s.w.outer)
  {
    BodyKeepsPace(cfg, s, moves, t);
    BodySettles(cfg, Before(s, t), t, OwnSteps(moves, t), k);
  }

  /** A lock is atomic. From the step that takes the guard to the end of its body, under any
      schedule, it does what a whole lock does to the view it had when it took the guard. */
  lemma LockIsAtomic(cfg: Switches, s: State, moves: seq<Move>, t: nat)
    requires GuardInv(cfg, s) && t < |s.th| && s.th[t].pc == Locking(LkTake) && CanTake(s.g, t)
    requires cfg.collectWithTake && cfg.perThreadRestore ==> !s.th[t].rec.owed
    requires WholeBody(cfg, Do(cfg, s, Move(t, Step)), moves, t)
    ensures var s', v := Exec(cfg, Do(cfg, s, Move(t, Step)), moves), Taken(See(Before(s, t)), t);
            && s'.th[t].pc == AfterLock(s.th[t])
            && See(Before(s', t)) == Aside(Counted(v.(g := v.g.(locks := v.g.locks + 1)), t), s'.w.outer)
            && (cfg.outerRegion ==> s'.w.outer == s.w.outer)
  {
    var s1 := Do(cfg, s, Move(t, Step));
    DoKeepsGuard(cfg, s, Move(t, Step));
    LockTaken(cfg, s, t);
    LockEnds(cfg, s1, moves, t, 7);
  }

  lemma LockEnds(cfg: Switches, s: State, moves: seq<Move>, t: nat, k: nat)
    requires GuardInv(cfg, s) && t < |s.th| && s.th[t].pc == Locking(LkCounted)
    requires WholeBody(cfg, s, moves, t) && k >= 7
    ensures var s', v := Exec(cfg, s, moves), See(Before(s, t));
            && s'.th[t].pc == AfterLock(s.th[t])
            && See(Before(s', t)) == Aside(Counted(v.(g := v.g.(locks := v.g.locks + 1)), t), s'.w.outer)
            && (cfg.outerRegion ==> s'.w.outer == s.w.outer)
  {
    CountedBody(cfg, Before(s, t), t, k);
    BodyEnds(cfg, s, moves, t, k);
  }

  lemma LockTaken(cfg: Switches, s: State, t: nat)
    requires t < |s.th| && s.th[t].pc == Locking(LkTake) && CanTake(s.g, t)
    requires cfg.collectWithTake && cfg.perThreadRestore ==> !s.th[t].rec.owed
    ensures var s1 := Do(cfg, s, Move(t, Step));
            && |s1.th| == |s.th| && s1.th[t].pc == Locking(LkCounted) && s1.th[t].nested == s.th[t].nested
            && See(Before(s1, t)) == Taken(See(Before(s, t)), t) && s1.w.outer == s.w.outer
  {}

  lemma CountedBody(cfg: Switches, e: Effect, t: nat, k: nat)
    requires e.me.pc == Locking(LkCounted) && k >= 7
    ensures var e', v := BodyFor(cfg, e, t, k), See(e);
            && e'.me.pc == AfterLock(e.me) && See(e') == Counted(v.(g := v.g.(locks := v.g.locks + 1)), t)
  {
    var e1 := LockStep(cfg, e, t);
    assert BodyFor(cfg, e, t, k) == BodyFor(cfg, e1, t, k - 1);
    RaiseBody(cfg, e1, t, k - 1);
  }

  /** An unlock is atomic. From the step that lets it in to its leave, under any schedule, it
      does what a whole unlock does to the view it had when it was let in. */
  lemma UnlockIsAtomic(cfg: Switches, s: State, moves: seq<Move>, t: nat)
    requires GuardInv(cfg, s) && t < |s.th| && s.th[t].pc == Admitting(UnEnter) && !Refused(See(Before(s, t)), t)
    requires WholeBody(cfg, Do(cfg, s, Move(t, Step)), moves, t)
    ensures var s', v := Exec(cfg, Do(cfg, s, Move(t, Step)), moves), Admitted(See(Before(s, t)), t);
            && s'.th[t].pc == AfterUnlock(s.th[t])
            && See(Before(s', t)) == Aside(Given(Undone(cfg, v, t)), s'.w.outer)
            && (cfg.outerRegion ==> s'.w.outer == s.w.outer)
  {
    var s1 := Do(cfg, s, Move(t, Step));
    DoKeepsGuard(cfg, s, Move(t, Step));
    UnlockLetIn(cfg, s, t);
    UnlockEnds(cfg, s1, moves, t, 8);
  }

  lemma UnlockEnds(cfg: Switches, s: State, moves: seq<Move>, t: nat, k: nat)
    requires GuardInv(cfg, s) && t < |s.th| && s.th[t].pc == Admitting(UnNote) && Holding(Before(s, t), t)
    requires WholeBody(cfg, s, moves, t) && k >= 8
    ensures var s', v := Exec(cfg, s, moves), See(Before(s, t));
            && s'.th[t].pc == AfterUnlock(s.th[t])
            && See(Before(s', t)) == Aside(Given(Undone(cfg, v, t)), s'.w.outer)
            && (cfg.outerRegion ==> s'.w.outer == s.w.outer)
  {
    UndoneBody(cfg, Before(s, t), t, k);
    BodyEnds(cfg, s, moves, t, k);
  }

  lemma UnlockLetIn(cfg: Switches, s: State, t: nat)
    requires GuardInv(cfg, s) && t < |s.th| && s.th[t].pc == Admitting(UnEnter) && !Refused(See(Before(s, t)), t)
    ensures var s1 := Do(cfg, s, Move(t, Step));
            && |s1.th| == |s.th| && s1.th[t].pc == Admitting(UnNote) && s1.th[t].nested == s.th[t].nested
            && See(Before(s1, t)) == Admitted(See(Before(s, t)), t) && Holding(Before(s1, t), t)
            && s1.w.outer == s.w.outer
  {
    assert ThreadOk(cfg, s.th[t]) && s.th[t].depth == DueDepth(s.g, t);
    var e1 := AdmitStep(cfg, Before(s, t), t);
    AdmitsOrRefuses(cfg, Before(s, t), t, 0);
    ApplyTwice(s, t, e1, e1);
    assert Do(cfg, s, Move(t, Step)) == Apply(s, t, e1);
  }
}
