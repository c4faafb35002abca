/** Concrete schedules of two of any number of threads, A = 0 and M = 1: the runs the source
    records, and those its own order of operations still allows. */
module AdxRuns {
  import opened AdxModel
  import opened AdxAccounts
  import opened AdxExclusion
  import opened AdxCalls

  /** One thread in its own code, or in a wait. */
  datatype Actor = Actor(depth: nat, parked: nat, prio: int, held: nat, saved: int, owed: bool)

  predicate Plays(me: Thread, a: Actor) {
    && me.pc == Idle && me.depth == a.depth && me.parked == a.parked && me.inWait == (a.parked > 0)
    && me.prio == a.prio && me.rec.held == a.held && me.rec.owed == a.owed
    && (a.owed ==> me.rec.owedPrio == a.saved)
    && (me.rec.hasSaved ==> me.rec.saved == a.saved)
  }

  /** Both threads between calls. Any others are wherever they were. */
  predicate Scene(cfg: Switches, s: State, a: Actor, m: Actor, owner: nat, count: int, slot: int, raiser: int) {
    && GuardInv(cfg, s) && |s.th| >= 2
    && Plays(s.th[0], a) && Plays(s.th[1], m)
    && s.g.owner == owner && s.w.count == count && s.w.slot == slot && s.w.raiser == raiser
    && raiser < 2
  }

  /** A holder's wait begins: the guard is free, and nothing else has changed. */
  lemma Parks(cfg: Switches, s: State, t: nat)
    requires GuardInv(cfg, s) && t < |s.th| && s.th[t].pc == Idle && !s.th[t].inWait
    requires s.g.owner == t + 1
    ensures var s' := Exec(cfg, s, [Move(t, Block)]);
            && GuardInv(cfg, s') && s'.g.owner == 0 && s'.w == s.w
            && s'.th == s.th[t := s.th[t].(depth := 0, inWait := true, parked := s.th[t].depth)]
  {
    ExecOne(cfg, s, Move(t, Block));
    ExclusionAlways(cfg, s, [Move(t, Block)]);
    assert s.th[t].depth == DueDepth(s.g, t);
  }

  /** A wait ends with the guard free: the nesting is back. */
  lemma Wakes(cfg: Switches, s: State, t: nat)
    requires GuardInv(cfg, s) && t < |s.th| && s.th[t].pc == Idle && s.th[t].inWait
    requires s.th[t].parked > 0 && s.g.owner == 0
    ensures var s' := Exec(cfg, s, WakeMoves(t));
            && GuardInv(cfg, s') && s'.g.owner == t + 1 && s'.w == s.w && s'.g.lost == s.g.lost
            && s'.th == s.th[t := s.th[t].(depth := s.th[t].parked, inWait := false, parked := 0)]
  {
    var m, k := Move(t, Wake), Move(t, Step);
    assert s.th[t].depth == DueDepth(s.g, t) && ThreadOk(cfg, s.th[t]);
    var s1 := Do(cfg, s, m);
    var s2 := Do(cfg, s1, k);
    var s3 := Do(cfg, s2, k);
    assert WakeMoves(t) == [m] + ([k] + [k]);
    ExecAppend(cfg, s, [m], [k] + [k]);
    ExecAppend(cfg, s1, [k], [k]);
    ExecOne(cfg, s, m);
    ExecOne(cfg, s1, k);
    ExecOne(cfg, s2, k);
    ExclusionAlways(cfg, s, WakeMoves(t));
    assert s3.th == s.th[t := s.th[t].(depth := s.th[t].parked, inWait := false, parked := 0)];
  }

  /** All at rest, the two at priorities `p` and `q`. */
  predicate Opening(s: State, p: int, q: int) {
    ValidStart(s) && |s.th| >= 2 && s.th[0].prio == p && s.th[1].prio == q
  }

  /** A locks, and waits inside; M locks, and waits inside. */
  lemma BothInside(cfg: Switches, s: State, p: int, q: int) returns (s': State)
    requires Opening(s, p, q)
    ensures Reaches(cfg, s, s')
    ensures Scene(cfg, s', Actor(0, 1, ELEVATED, 1, p, false), Actor(0, 1, q, 1, q, false), 0, 2, p, 0)
  {
    GuardInvStart(cfg, s);
    assert Exec(cfg, s, []) == s;
    LockInRun(cfg, s, 0);
    var s1 := Exec(cfg, s, LockMoves(0));
    ReachesOn(cfg, s, s, LockMoves(0));
    Parks(cfg, s1, 0);
    var s2 := Exec(cfg, s1, [Move(0, Block)]);
    ReachesOn(cfg, s, s1, [Move(0, Block)]);
    LockInRun(cfg, s2, 1);
    var s3 := Exec(cfg, s2, LockMoves(1));
    ReachesOn(cfg, s, s2, LockMoves(1));
    Parks(cfg, s3, 1);
    s' := Exec(cfg, s3, [Move(1, Block)]);
    ReachesOn(cfg, s, s3, [Move(1, Block)]);
  }

  /** A wakes and unlocks: the count is still 1, so A stays raised. M wakes. */
  lemma RaiserLeaves(cfg: Switches, s: State, p: int, q: int) returns (s': State)
    requires Scene(cfg, s, Actor(0, 1, ELEVATED, 1, p, false), Actor(0, 1, q, 1, q, false), 0, 2, p, 0)
    ensures Reaches(cfg, s, s')
    ensures Scene(cfg, s', Actor(0, 0, ELEVATED, 0, p, false), Actor(1, 0, q, 1, q, false), 2, 1, p, 0)
  {
    assert Exec(cfg, s, []) == s;
    Wakes(cfg, s, 0);
    var s1 := Exec(cfg, s, WakeMoves(0));
    ReachesOn(cfg, s, s, WakeMoves(0));
    UnlockInRun(cfg, s1, 0);
    var s2 := Exec(cfg, s1, UnlockMoves(0));
    ReachesOn(cfg, s, s1, UnlockMoves(0));
    Wakes(cfg, s2, 1);
    s' := Exec(cfg, s2, WakeMoves(1));
    ReachesOn(cfg, s, s2, WakeMoves(1));
  }

  /** A lock that takes the guard at count 0 while its own raise is still owed to it goes
      on to save the elevated value. */
  lemma LateTakeSaves(cfg: Switches, e: Effect, t: nat)
    requires e.me.pc == Locking(LkTake) && CanTake(e.g, t) && !cfg.collectWithTake
    requires e.me.rec.owed && e.me.prio == ELEVATED && e.w.count == 0
    ensures var e' := RunFor(cfg, e, t, 5);
            e'.w.slot == ELEVATED && e'.h.savedElevated && e'.h.savedLate
  {
    var e1 := LockStep(cfg, e, t);
    assert RunFor(cfg, e, t, 5) == RunFor(cfg, e1, t, 4);
    var e2 := LockStep(cfg, e1, t);
    assert RunFor(cfg, e1, t, 4) == RunFor(cfg, e2, t, 3);
    var e3 := RaiseStep(e2);
    assert RunFor(cfg, e2, t, 3) == RunFor(cfg, e3, t, 2);
    var e4 := RaiseStep(e3);
    assert RunFor(cfg, e3, t, 2) == RunFor(cfg, e4, t, 1);
    var e5 := RaiseStep(e4);
    assert RunFor(cfg, e4, t, 1) == RunFor(cfg, e5, t, 0);
  }

  /** A starts its next lock, finds nothing owed, and queues behind M. */
  lemma RaiserQueues(cfg: Switches, s: State, p: int, q: int)
    requires Scene(cfg, s, Actor(0, 0, ELEVATED, 0, p, false), Actor(1, 0, q, 1, q, false), 2, 1, p, 0)
    ensures var s' := Exec(cfg, s, [Move(0, CallLock)] + Steps(0, 1));
            && GuardInv(cfg, s')
            && s' == s.(th := s.th[0 := s.th[0].(pc := Locking(LkTake))])
  {
    var m, k := Move(0, CallLock), Move(0, Step);
    assert Steps(0, 1) == [k];
    ExecAppend(cfg, s, [m], [k]);
    ExecOne(cfg, s, m);
    ExecOne(cfg, Do(cfg, s, m), k);
    ExclusionAlways(cfg, s, [m] + Steps(0, 1));
    assert Exec(cfg, s, [m] + Steps(0, 1)).th == s.th[0 := s.th[0].(pc := Locking(LkTake))];
  }

  /** The raiser is queued for the guard with a restore owed to it that it looked for too
      early, and the guard has become free. */
  predicate LateQueued(cfg: Switches, s: State) {
    && GuardInv(cfg, s) && |s.th| >= 2 && s.g.owner == 0 && s.w.count == 0 && s.w.raiser == NO_RAISER
    && s.th[0].pc == Locking(LkTake) && !s.th[0].nested && s.th[0].prio == ELEVATED
    && s.th[0].rec.owed
  }

  /** A becomes owed after it has collected and before it has the guard. */
  lemma RaiserOwedWhileQueued(cfg: Switches, s: State, p: int, q: int) returns (s': State)
    requires cfg.perThreadRestore && !cfg.collectWithTake && Opening(s, p, q)
    ensures Reaches(cfg, s, s') && LateQueued(cfg, s')
  {
    var s1 := BothInside(cfg, s, p, q);
    var s2 := RaiserLeaves(cfg, s1, p, q);
    ReachesThrough(cfg, s, s1, s2);
    assert ThreadOk(cfg, s2.th[0]);
    var queue := [Move(0, CallLock)] + Steps(0, 1);
    RaiserQueues(cfg, s2, p, q);
    var s3 := Exec(cfg, s2, queue);
    ReachesOn(cfg, s, s2, queue);
    UnlockInRun(cfg, s3, 1);
    s' := Exec(cfg, s3, UnlockMoves(1));
    ReachesOn(cfg, s, s3, UnlockMoves(1));
    assert s'.th[0] == MakeOwed(s3.th[0]);
  }

  /** The order of operations in sub_0013B0A0 leaves one window. With both fixes on, from
      any two base priorities, there is a run in which a lock saves the elevated value:
      the raiser A becomes owed after it has collected and before it has the guard. */
  lemma SplitCollectionCanPoison(cfg: Switches, s: State, p: int, q: int)
    requires cfg.perThreadRestore && !cfg.collectWithTake && Opening(s, p, q)
    ensures exists moves :: Exec(cfg, s, moves).h.savedElevated && Exec(cfg, s, moves).w.slot == ELEVATED
  {
    var s4 := RaiserOwedWhileQueued(cfg, s, p, q);
    LateTakeSaves(cfg, Before(s4, 0), 0);
    StepsExec(cfg, s4, 0, 5);
    ReachesOn(cfg, s, s4, Steps(0, 5));
  }

  lemma ReachesThrough(cfg: Switches, s: State, s1: State, s2: State)
    requires Reaches(cfg, s, s1) && Reaches(cfg, s1, s2)
    ensures Reaches(cfg, s, s2)
  {
    var moves :| Exec(cfg, s1, moves) == s2;
    ReachesOn(cfg, s, s1, moves);
  }

  /** Without the per-thread restore the recorded run poisons with no window at all: M's
      unlock restores A's priority onto M, A is never lowered, and A's next lock saves the
      elevated value. */
  lemma SharedSlotPoisons(cfg: Switches, s: State, p: int, q: int)
    requires !cfg.perThreadRestore && Opening(s, p, q)
    ensures exists moves :: var s' := Exec(cfg, s, moves);
                            |s'.th| >= 2 && s'.w.slot == ELEVATED && s'.th[1].prio == p
  {
    var s1 := BothInside(cfg, s, p, q);
    var s2 := RaiserLeaves(cfg, s1, p, q);
    ReachesThrough(cfg, s, s1, s2);
    UnlockInRun(cfg, s2, 1);
    var s3 := Exec(cfg, s2, UnlockMoves(1));
    ReachesOn(cfg, s, s2, UnlockMoves(1));
    LockInRun(cfg, s3, 0);
    ReachesOn(cfg, s, s3, LockMoves(0));
  }

  // ------------------------------------------------------------ a whole wait

  /** What no move of another thread changes of a thread: all but its being owed. */
  predicate Undisturbed(me: Thread, me': Thread) {
    me' == me.(rec := me.rec.(owed := me'.rec.owed, owedPrio := me'.rec.owedPrio))
  }

  predicate NotBy(moves: seq<Move>, t: nat) {
    forall k :: 0 <= k < |moves| ==> moves[k].who != t
  }

  lemma {:induction false} OthersLeaveAlone(cfg: Switches, s: State, moves: seq<Move>, t: nat)
    requires GuardInv(cfg, s) && t < |s.th| && NotBy(moves, t)
    ensures var s' := Exec(cfg, s, moves);
            GuardInv(cfg, s') && |s'.th| == |s.th| && Undisturbed(s.th[t], s'.th[t])
  {
    if moves != [] {
      var k := |moves| - 1;
      assert NotBy(moves[..k], t) && moves[k].who != t;
      OthersLeaveAlone(cfg, s, moves[..k], t);
      DoKeepsGuard(cfg, Exec(cfg, s, moves[..k]), moves[k]);
    }
  }

  /** A whole wait of a holder, whatever other threads do meanwhile: they find the guard free
      when it begins; and once it is free again the wait gives the holder back its exact
      nesting, loses nothing, and changes no guarded word. */
  lemma WholeWait(cfg: Switches, s: State, moves: seq<Move>, t: nat)
    requires GuardInv(cfg, s) && t < |s.th| && s.th[t].pc == Idle && !s.th[t].inWait
    requires s.g.owner == t + 1 && NotBy(moves, t)
    requires Exec(cfg, s, [Move(t, Block)] + moves).g.owner == 0
    ensures Exec(cfg, s, [Move(t, Block)]).g.owner == 0
    ensures var s1 := Exec(cfg, s, [Move(t, Block)] + moves);
            var s2 := Exec(cfg, s, [Move(t, Block)] + moves + WakeMoves(t));
            && |s2.th| == |s1.th| == |s.th| && Undisturbed(s.th[t], s2.th[t]) && s2.g.owner == t + 1
            && s2.g.depth == s.g.depth && s2.g.lost == s1.g.lost && s2.w == s1.w
            && forall u :: 0 <= u < |s.th| && u != t ==> s2.th[u] == s1.th[u]
  {
    assert s.th[t].depth == DueDepth(s.g, t);
    Parks(cfg, s, t);
    var s0 := Exec(cfg, s, [Move(t, Block)]);
    ExecAppend(cfg, s, [Move(t, Block)], moves);
    OthersLeaveAlone(cfg, s0, moves, t);
    var s1 := Exec(cfg, s0, moves);
    Wakes(cfg, s1, t);
    ExecAppend(cfg, s, [Move(t, Block)] + moves, WakeMoves(t));
    var s2 := Exec(cfg, s1, WakeMoves(t));
    assert s2.th[t].depth == DueDepth(s2.g, t);
  }

  // ------------------------------------------------------------ a false alarm

  lemma OneMore(cfg: Switches, s: State, s1: State, m: Move)
    requires Reaches(cfg, s, s1)
    ensures Reaches(cfg, s, Do(cfg, s1, m))
  {
    ExecOne(cfg, s1, m);
    ReachesOn(cfg, s, s1, [m]);
  }

  /** A has taken the guard and not yet counted its lock. */
  lemma TakesUncounted(cfg: Switches, s: State) returns (s': State)
    requires AtRest(s) && |s.th| >= 2
    ensures Reaches(cfg, s, s') && |s'.th| == |s.th| && s'.th[1] == s.th[1]
    ensures s'.th[0].pc == Locking(LkCounted) && s'.g.owner == 1
    ensures s'.g == s.g.(owner := 1, depth := 1, tsum := s.g.tsum + 1)
  {
    assert Exec(cfg, s, []) == s;
    assert Unused(s.th[0]);
    OneMore(cfg, s, s, Move(0, CallLock));
    var s1 := Do(cfg, s, Move(0, CallLock));
    OneMore(cfg, s, s1, Move(0, Step));
    var s2 := Do(cfg, s1, Move(0, Step));
    assert s2.th[0].pc == Locking(LkTake) && s2.th[0].depth == 0 && s2.g == s.g;
    OneMore(cfg, s, s2, Move(0, Step));
    s' := Do(cfg, s2, Move(0, Step));
  }

  /** The leak test can fire with nothing lost. From rest, A takes the guard and has not yet
      counted its lock when M's unlock is refused; M's note reads -1. */
  lemma LeakFalseAlarm(cfg: Switches, s: State)
    requires AtRest(s) && |s.th| >= 2
    ensures exists moves :: var s' := Exec(cfg, s, moves);
              |s'.th| == |s.th| && s'.th[1].pc == Idle && s'.g.lost == 0 && TraceLeak(s', 1) == -1
  {
    var s1 := TakesUncounted(cfg, s);
    assert Unused(s.th[1]);
    OneMore(cfg, s, s1, Move(1, CallUnlock));
    var s2 := Do(cfg, s1, Move(1, CallUnlock));
    OneMore(cfg, s, s2, Move(1, Step));
    var s3 := Do(cfg, s2, Move(1, Step));
    assert s3.th[1].pc == Admitting(UnEnter) && s3.th[1].depth == 0 && s3.g == s1.g;
    OneMore(cfg, s, s3, Move(1, Step));
    var s4 := Do(cfg, s3, Move(1, Step));
    assert s4.th[1].pc == Idle && s4.g == s1.g;
  }
}
