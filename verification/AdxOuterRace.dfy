/** Runs of the outer word of two of any number of threads, A = 0 and M = 1; any others stay
    in their own code. Without the guard a thread is left inside the region with no lock
    taken. With it, a level of the guard can outlive the word. */
module AdxOuterRace {
  import opened AdxModel
  import opened AdxExclusion
  import opened AdxAccounts
  import opened AdxCalls
  import opened AdxOuterCalls
  import opened AdxOuterWord
  import opened AdxLevels
  import opened AdxRuns

  /** Can balanced outer traffic lead from `s` to `s'`? */
  ghost predicate OuterReaches(cfg: Switches, s: State, s': State) {
    exists moves :: OuterRun(cfg, s, moves) && Exec(cfg, s, moves) == s'
  }

  lemma {:induction false} OuterAppend(cfg: Switches, s: State, a: seq<Move>, b: seq<Move>)
    requires OuterRun(cfg, s, a) && OuterRun(cfg, Exec(cfg, s, a), b)
    ensures OuterRun(cfg, s, a + b)
    decreases |b|
  {
    if b == [] {
      assert a + b == a;
    } else {
      var k := |b| - 1;
      assert (a + b)[..|a + b| - 1] == a + b[..k];
      OuterAppend(cfg, s, a, b[..k]);
      ExecAppend(cfg, s, a, b[..k]);
    }
  }

  lemma OuterReachesOn(cfg: Switches, s: State, s1: State, moves: seq<Move>)
    requires OuterReaches(cfg, s, s1) && OuterRun(cfg, s1, moves)
    ensures OuterReaches(cfg, s, Exec(cfg, s1, moves))
  {
    var before :| OuterRun(cfg, s, before) && Exec(cfg, s, before) == s1;
    ExecAppend(cfg, s, before, moves);
    OuterAppend(cfg, s, before, moves);
    assert Exec(cfg, s, before + moves) == Exec(cfg, s1, moves);
  }

  lemma OuterOne(cfg: Switches, s: State, s1: State, m: Move)
    requires OuterReaches(cfg, s, s1) && OuterMove(s1, m)
    ensures OuterReaches(cfg, s, Do(cfg, s1, m))
  {
    assert [m][..0] == [] && Exec(cfg, s1, []) == s1;
    ExecOne(cfg, s1, m);
    OuterReachesOn(cfg, s, s1, [m]);
  }

  /** Moves that start nothing but enters and waits. */
  lemma {:induction false} PlainMoves(cfg: Switches, s: State, moves: seq<Move>)
    requires forall k :: 0 <= k < |moves| ==> moves[k].act in {CallEnter, Block, Wake, Step}
    ensures OuterRun(cfg, s, moves)
  {
    if moves != [] {
      PlainMoves(cfg, s, moves[..|moves| - 1]);
    }
  }

  lemma PlainReaches(cfg: Switches, s: State, s1: State, moves: seq<Move>)
    requires OuterReaches(cfg, s, s1)
    requires forall k :: 0 <= k < |moves| ==> moves[k].act in {CallEnter, Block, Wake, Step}
    ensures OuterReaches(cfg, s, Exec(cfg, s1, moves))
  {
    PlainMoves(cfg, s1, moves);
    OuterReachesOn(cfg, s, s1, moves);
  }

  lemma LeaveReaches(cfg: Switches, s: State, s1: State, t: nat)
    requires OuterReaches(cfg, s, s1) && t < |s1.th| && s1.th[t].balance > 0
    ensures OuterReaches(cfg, s, Exec(cfg, s1, LeaveMoves(t)))
  {
    var m := Move(t, CallLeave);
    OuterOne(cfg, s, s1, m);
    PlainReaches(cfg, s, Do(cfg, s1, m), Steps(t, 14));
    ExecOne(cfg, s1, m);
    ExecAppend(cfg, s1, [m], Steps(t, 14));
  }

  lemma ReachesItself(cfg: Switches, s: State)
    ensures OuterReaches(cfg, s, s)
  {
    assert OuterRun(cfg, s, []) && Exec(cfg, s, []) == s;
  }

  // ------------------------------------------------------------ without the guard

  /** The threads that play no part in the run. */
  predicate RestIdle(s: State) {
    |s.th| >= 2 && forall u :: 2 <= u < |s.th| ==> s.th[u].pc == Idle
  }

  /** A is inside the region with the lock; M is where it was. */
  predicate AInside(cfg: Switches, s: State, m: Thread) {
    && GuardInv(cfg, s) && RestIdle(s) && s.th[0].pc == Idle && s.th[0].balance > 0
    && s.g.owner == 1 && s.g.depth == 1 && s.w.outer == 1 && s.w.count == 1 && s.w.raiser == 0
    && s.th[1] == m
  }

  lemma AEnters(cfg: Switches, s: State) returns (s': State)
    requires !cfg.outerRegion && AtRest(s) && |s.th| >= 2
    ensures OuterReaches(cfg, s, s') && AInside(cfg, s', s.th[1])
  {
    assert Unused(s.th[0]);
    ReachesItself(cfg, s);
    GuardInvStart(cfg, s);
    EnterInRun(cfg, s, 0);
    PlainReaches(cfg, s, s, EnterMoves(0));
    s' := Exec(cfg, s, EnterMoves(0));
    assert s'.th[0].depth == DueDepth(s'.g, 0);
  }

  /** M has begun an enter and read a positive word. */
  function Committed(m: Thread): Thread {
    m.(pc := Entering(OeLoad), nested := true)
  }

  /** A move of M's own, in its outer-word body, that writes nothing shared. */
  lemma MMoves(cfg: Switches, s: State, s1: State, m: Thread, act: Act, m': Thread) returns (s': State)
    requires OuterReaches(cfg, s, s1) && AInside(cfg, s1, m)
    requires act == CallEnter || act == Step
    requires CanDo(cfg, s1, Move(1, act))
    requires StepOf(cfg, Before(s1, 1), 1, act) == Before(s1, 1).(me := m')
    ensures OuterReaches(cfg, s, s') && AInside(cfg, s', m') && s'.w == s1.w
  {
    OuterOne(cfg, s, s1, Move(1, act));
    s' := Do(cfg, s1, Move(1, act));
    DoKeepsGuard(cfg, s1, Move(1, act));
    assert s'.th == s1.th[1 := m'];
  }

  lemma MReads(cfg: Switches, s: State, s1: State, m: Thread) returns (s': State)
    requires OuterReaches(cfg, s, s1) && AInside(cfg, s1, m) && !cfg.outerRegion && m.pc == Idle
    ensures OuterReaches(cfg, s, s') && AInside(cfg, s', Committed(m))
  {
    var taken := m.(pc := Entering(OeRead), nested := true);
    var s2 := MCalls(cfg, s, s1, m);
    s' := MMoves(cfg, s, s2, taken, Step, Committed(m));
  }

  lemma MCalls(cfg: Switches, s: State, s1: State, m: Thread) returns (s': State)
    requires OuterReaches(cfg, s, s1) && AInside(cfg, s1, m) && !cfg.outerRegion && m.pc == Idle
    ensures OuterReaches(cfg, s, s') && AInside(cfg, s', m.(pc := Entering(OeRead), nested := true))
  {
    var called := m.(pc := Entering(OeTake));
    var s2 := MMoves(cfg, s, s1, m, CallEnter, called);
    s' := MMoves(cfg, s, s2, called, Step, m.(pc := Entering(OeRead), nested := true));
  }

  /** A has left: the word is 0, the lock is free, and M has not moved. */
  lemma ALeaves(cfg: Switches, s: State, s1: State, m: Thread) returns (s': State)
    requires !cfg.outerRegion && OuterReaches(cfg, s, s1) && AInside(cfg, s1, m)
    ensures OuterReaches(cfg, s, s')
    ensures RestIdle(s') && s'.th[0].pc == Idle && s'.th[1] == m
    ensures s'.g.owner == 0 && s'.w.outer == 0 && s'.w.count == 0 && s'.w.raiser == NO_RAISER
  {
    assert s1.th[0].depth == DueDepth(s1.g, 0) && ThreadOk(cfg, s1.th[0]);
    LeaveInRun(cfg, s1, 0);
    LeaveReaches(cfg, s, s1, 0);
    s' := Exec(cfg, s1, LeaveMoves(0));
  }

  /** M counts itself and returns. */
  lemma MCounts(cfg: Switches, s: State, s1: State, m: Thread) returns (s': State)
    requires OuterReaches(cfg, s, s1) && !cfg.outerRegion && RestIdle(s1) && s1.th[0].pc == Idle
    requires s1.th[1] == Committed(m) && s1.g.owner == 0 && s1.w.outer == 0 && s1.w.count == 0
    requires s1.w.raiser == NO_RAISER
    ensures OuterReaches(cfg, s, s')
    ensures BetweenCalls(s') && |s'.th| >= 2 && s'.th[1].balance == m.balance + 1
    ensures s'.w.outer == 1 && s'.w.count == 0 && s'.g.owner == 0
  {
    WordCounts(cfg, Before(s1, 1), 1, 3);
    StepsExec(cfg, s1, 1, 3);
    PlainReaches(cfg, s, s1, Steps(1, 3));
    s' := Exec(cfg, s1, Steps(1, 3));
  }

  /** Without the region switch the word is not a lock. From rest, two of any number of
      threads, making balanced calls, can reach a state where every thread is in its own
      code, the word says M is inside, and no lock is held: M read A's 1, and A left before
      M counted itself. */
  lemma UnguardedWordBreaks(cfg: Switches, s: State)
    requires !cfg.outerRegion && AtRest(s) && |s.th| >= 2
    ensures exists moves :: OuterRun(cfg, s, moves)
              && var s' := Exec(cfg, s, moves);
                 BetweenCalls(s') && |s'.th| >= 2 && s'.th[1].balance == 1
                 && s'.w.outer == 1 && s'.w.count == 0 && s'.g.owner == 0
  {
    var m := Committed(s.th[1]);
    var s1 := AEnters(cfg, s);
    var s2 := MReads(cfg, s, s1, s.th[1]);
    var s3 := ALeaves(cfg, s, s2, m);
    assert Unused(s.th[1]);
    var s4 := MCounts(cfg, s, s3, s.th[1]);
  }

  // ------------------------------------------------------------ a level outlives the word

  /** A thread in its own code, or in a wait. */
  datatype Seat = Seat(depth: nat, parked: nat, balance: int)

  predicate Sits(me: Thread, a: Seat) {
    && me.pc == Idle && me.depth == a.depth && me.parked == a.parked && me.inWait == (a.parked > 0)
    && me.balance == a.balance
  }

  /** Both threads between calls, with the word, the refcount and the guard's owner as said,
      A raised since its enter, and nothing lost; the rest have not moved. */
  ghost predicate Stage(cfg: Switches, s0: State, s: State, a: Seat, m: Seat, owner: nat, outer: int, count: int) {
    && OuterReaches(cfg, s0, s) && GuardInv(cfg, s) && |s.th| == |s0.th| >= 2
    && Sits(s.th[0], a) && Sits(s.th[1], m)
    && s.g.owner == owner && s.w.outer == outer && s.w.count == count && s.g.lost == 0
    && s.w.raiser == (if count > 0 then 0 else NO_RAISER)
    && s.th[0].prio == ELEVATED
    && forall u :: 2 <= u < |s.th| ==> s.th[u] == s0.th[u]
  }

  lemma Opens(cfg: Switches, s0: State) returns (s: State)
    requires cfg.outerRegion && AtRest(s0) && |s0.th| >= 2
    ensures Stage(cfg, s0, s, Seat(1, 0, 1), Seat(0, 0, 0), 1, 1, 1)
  {
    assert Unused(s0.th[0]) && Unused(s0.th[1]);
    ReachesItself(cfg, s0);
    GuardInvStart(cfg, s0);
    EnterInRun(cfg, s0, 0);
    PlainReaches(cfg, s0, s0, EnterMoves(0));
    s := Exec(cfg, s0, EnterMoves(0));
  }

  lemma AParks(cfg: Switches, s0: State, s: State, balance: int, outer: int, b: int) returns (s': State)
    requires Stage(cfg, s0, s, Seat(1, 0, balance), Seat(0, 0, b), 1, outer, 1)
    ensures Stage(cfg, s0, s', Seat(0, 1, balance), Seat(0, 0, b), 0, outer, 1)
  {
    Parks(cfg, s, 0);
    PlainReaches(cfg, s0, s, [Move(0, Block)]);
    s' := Exec(cfg, s, [Move(0, Block)]);
    ExecOne(cfg, s, Move(0, Block));
  }

  lemma AWakes(cfg: Switches, s0: State, s: State, balance: int, outer: int, count: int, b: int) returns (s': State)
    requires Stage(cfg, s0, s, Seat(0, 1, balance), Seat(0, 0, b), 0, outer, count)
    ensures Stage(cfg, s0, s', Seat(1, 0, balance), Seat(0, 0, b), 1, outer, count)
    ensures s'.th[0].rec == s.th[0].rec
  {
    Wakes(cfg, s, 0);
    PlainReaches(cfg, s0, s, WakeMoves(0));
    s' := Exec(cfg, s, WakeMoves(0));
  }

  /** M enters while A waits: the word is positive, so it takes no lock. */
  lemma MEnters(cfg: Switches, s0: State, s: State) returns (s': State)
    requires cfg.outerRegion
    requires Stage(cfg, s0, s, Seat(0, 1, 1), Seat(0, 0, 0), 0, 1, 1)
    ensures Stage(cfg, s0, s', Seat(0, 1, 1), Seat(0, 0, 1), 0, 2, 1)
  {
    EnterInRun(cfg, s, 1);
    PlainReaches(cfg, s0, s, EnterMoves(1));
    s' := Exec(cfg, s, EnterMoves(1));
  }

  /** A leaves, with M still inside: the word stays positive and the lock is kept. */
  lemma AIsFirstOut(cfg: Switches, s0: State, s: State) returns (s': State)
    requires cfg.outerRegion && Stage(cfg, s0, s, Seat(1, 0, 1), Seat(0, 0, 1), 1, 2, 1)
    ensures Stage(cfg, s0, s', Seat(1, 0, 0), Seat(0, 0, 1), 1, 1, 1)
  {
    LeaveInRun(cfg, s, 0);
    LeaveReaches(cfg, s0, s, 0);
    s' := Exec(cfg, s, LeaveMoves(0));
  }

  /** M leaves while A waits: the unlock borrows a level, and A is left owed. */
  lemma MIsLastOut(cfg: Switches, s0: State, s: State) returns (s': State)
    requires cfg.outerRegion && cfg.perThreadRestore
    requires Stage(cfg, s0, s, Seat(0, 1, 0), Seat(0, 0, 1), 0, 1, 1)
    ensures Stage(cfg, s0, s', Seat(0, 1, 0), Seat(0, 0, 0), 0, 0, 0)
    ensures s'.th[0].rec.owed
  {
    assert ThreadOk(cfg, s.th[1]);
    LeaveInRun(cfg, s, 1);
    LeaveReaches(cfg, s0, s, 1);
    s' := Exec(cfg, s, LeaveMoves(1));
  }

  lemma OutlivesInStages(cfg: Switches, s: State) returns (s': State)
    requires cfg.outerRegion && cfg.perThreadRestore && AtRest(s) && |s.th| >= 2
    ensures Stage(cfg, s, s', Seat(1, 0, 0), Seat(0, 0, 0), 1, 0, 0) && s'.th[0].rec.owed
  {
    var s1 := Opens(cfg, s);
    var s2 := AParks(cfg, s, s1, 1, 1, 0);
    var s3 := MEnters(cfg, s, s2);
    var s4 := AWakes(cfg, s, s3, 1, 2, 1, 1);
    var s5 := AIsFirstOut(cfg, s, s4);
    var s6 := AParks(cfg, s, s5, 0, 1, 1);
    var s7 := MIsLastOut(cfg, s, s6);
    s' := AWakes(cfg, s, s7, 0, 0, 0, 0);
  }

  /** A thread that calls an enter while another owns the guard has to wait. */
  lemma EnterMustWait(cfg: Switches, s: State, t: nat)
    requires cfg.outerRegion && t < |s.th| && s.th[t].pc == Idle && !CanTake(s.g, t)
    ensures var s' := Do(cfg, s, Move(t, CallEnter)); |s'.th| == |s.th| && Waits(cfg, s', t)
  {}

  /** Everyone is out: in their own code, no enter outstanding, in no wait. */
  predicate EveryoneOut(s: State) {
    BetweenCalls(s) && forall u :: 0 <= u < |s.th| ==> s.th[u].balance == 0 && !s.th[u].inWait
  }

  lemma StageIsOut(cfg: Switches, s0: State, s: State, a: Seat, m: Seat, owner: nat, outer: int, count: int)
    requires AtRest(s0) && Stage(cfg, s0, s, a, m, owner, outer, count)
    requires a.balance == m.balance == 0 && a.parked == m.parked == 0
    ensures EveryoneOut(s) && TraceLeak(s, 0) == 0
  {
    forall u | 0 <= u < |s.th|
      ensures s.th[u].pc == Idle && s.th[u].balance == 0 && !s.th[u].inWait
    {
      assert Unused(s0.th[u]);
    }
    var moves :| OuterRun(cfg, s0, moves) && Exec(cfg, s0, moves) == s;
    LeakIsLostLevels(cfg, s0, moves, 0);
  }

  /** With the region switch on the word and the guard can part. From rest, two of any number
      of threads, making balanced calls with waits between them, can reach a state where
      everyone is out, the word and the refcount are 0, nothing is lost and the leak test
      reads 0; and yet A owns the guard, is still raised and owed, and M's next enter must
      wait. */
  lemma GuardOutlivesWord(cfg: Switches, s: State)
    requires cfg.outerRegion && cfg.perThreadRestore && AtRest(s) && |s.th| >= 2
    ensures exists moves :: OuterRun(cfg, s, moves)
              && var s' := Exec(cfg, s, moves);
                 && |s'.th| == |s.th| && EveryoneOut(s') && s'.w.outer == 0 && s'.w.count == 0
                 && s'.g.lost == 0 && TraceLeak(s', 0) == 0
                 && s'.g.owner == 1 && s'.th[0].depth == 1 && s'.th[0].prio == ELEVATED && s'.th[0].rec.owed
                 && var s'' := Do(cfg, s', Move(1, CallEnter)); |s''.th| == |s.th| && Waits(cfg, s'', 1)
  {
    var s' := OutlivesInStages(cfg, s);
    StageIsOut(cfg, s, s', Seat(1, 0, 0), Seat(0, 0, 0), 1, 0, 0);
    EnterMustWait(cfg, s', 1);
  }
}
