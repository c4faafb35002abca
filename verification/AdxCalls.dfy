/** What one whole call does when nothing interleaves with it: sub_0013B0A0 and
    sub_0013B0E0 as plain functions of what can be observed afterwards, and the proof
    that a thread left to run its own steps computes exactly that. */
module AdxCalls {
  import opened AdxModel
  import opened AdxExclusion

  /** What a call leaves behind, without the locals of the routine. */
  datatype Seen = Seen(
    depth: nat, region: nat, inWait: bool, parked: nat, prio: int, rec: Record,
    g: Guard, w: Words, owes: int)

  function See(e: Effect): Seen {
    Seen(e.me.depth, e.me.region, e.me.inWait, e.me.parked, e.me.prio, e.me.rec, e.g, e.w, e.owes)
  }

  /** Collecting what is owed, at the entry of either routine. */
  function Paid(cfg: Switches, v: Seen): Seen {
    if cfg.perThreadRestore && v.rec.owed
    then v.(prio := v.rec.owedPrio, rec := v.rec.(owed := false))
    else v
  }

  /** What a lock that has the guard does to the words, the ledger and the thread's own
      priority: at count 0 it saves the priority it has, and raises itself. */
  function Counted(v: Seen, t: nat): Seen {
    var counted := v.w.(count := v.w.count + 1, heldSum := v.w.heldSum + 1);
    var rec := v.rec.(held := v.rec.held + 1);
    if v.w.count != 0 then v.(rec := rec, w := counted)
    else
      v.(prio := ELEVATED,
         rec := rec.(saved := v.prio, hasSaved := true),
         w := counted.(slot := v.prio, raiser := t))
  }

  /** sub_0013B0A0, once the guard is to be had. */
  function LockCall(cfg: Switches, before: Seen, t: nat): Seen {
    var v := Taken(Paid(cfg, before), t);
    Counted(v.(g := v.g.(locks := v.g.locks + 1)), t)
  }

  /** What an admitted unlock does to the words, the ledger and the thread's priority. */
  function Undone(cfg: Switches, v: Seen, t: nat): Seen {
    if v.w.count <= 0 && cfg.unmatchedSafe then Clamped(Noted(v), v.rec.held > 0)
    else Dropped(cfg, Noted(v), t)
  }

  /** The ledger's part: one lock fewer, if the thread holds any. */
  function Noted(v: Seen): Seen {
    if v.rec.held > 0
    then v.(rec := v.rec.(held := v.rec.held - 1), w := v.w.(heldSum := v.w.heldSum - 1))
    else v
  }

  /** Nothing is undone at count 0, but a thread that holds nothing and still reads
      elevated gets its own priority back. */
  function Clamped(v: Seen, matched: bool): Seen {
    if !matched && v.prio == ELEVATED then v.(prio := if v.rec.hasSaved then v.rec.saved else 0) else v
  }

  /** The decrement. */
  function Dropped(cfg: Switches, v: Seen, t: nat): Seen {
    var v1 := v.(w := v.w.(count := v.w.count - 1));
    if v1.w.count != 0 then v1 else Ended(cfg, v1, t)
  }

  /** At zero the raise ends: on the raiser here, or owed to it. */
  function Ended(cfg: Switches, v: Seen, t: nat): Seen {
    if Crosses(cfg, v.w, t) then v.(owes := v.w.raiser, w := v.w.(raiser := NO_RAISER))
    else v.(prio := v.w.slot, owes := NO_RAISER, w := v.w.(raiser := NO_RAISER))
  }

  /** Taking a level of the guard, and giving one back. */
  function Taken(v: Seen, t: nat): Seen {
    v.(depth := v.depth + 1, g := v.g.(owner := t + 1, depth := v.depth + 1, tsum := v.g.tsum + 1))
  }

  function Given(v: Seen): Seen
    requires v.depth > 0
  {
    var d := v.depth - 1;
    v.(depth := d, g := v.g.(owner := if d == 0 then 0 else v.g.owner, depth := d, tsum := v.g.tsum - 1))
  }

  /** An unlock is refused when it has no level to give back and another thread is inside. */
  predicate Refused(v: Seen, t: nat) {
    v.depth <= v.region && !CanTake(v.g, t)
  }

  /** An unlock that is let in: a matched one has its lock's level, an unmatched one borrows
      one for its body. */
  function Admitted(v: Seen, t: nat): Seen {
    if v.depth > v.region then v.(g := v.g.(unlocksMatched := v.g.unlocksMatched + 1))
    else Taken(v, t)
  }

  /** sub_0013B0E0. */
  function UnlockCall(cfg: Switches, before: Seen, t: nat): Seen {
    var v := Paid(cfg, before);
    if Refused(v, t) then v else Given(Undone(cfg, Admitted(v, t), t))
  }

  /** The guard as thread `t` sees it, in order. */
  predicate Orderly(v: Seen, t: nat) {
    (v.g.owner == 0 <==> v.g.depth == 0) && v.depth == if v.g.owner == t + 1 then v.g.depth else 0
  }

  /** A lock and its unlock, with nothing between them: the thread is back where it was
      once it had collected what it was owed, at its own priority. Only the counters of
      calls, and at count 0 the record of the raise, have moved. */
  lemma LockThenUnlock(cfg: Switches, v: Seen, t: nat)
    requires Orderly(v, t) && CanTake(v.g, t) && v.depth >= v.region
    requires v.w.count >= 0 && v.owes == NO_RAISER
    ensures var p, v' := Paid(cfg, v), UnlockCall(cfg, LockCall(cfg, v, t), t);
            && v'.g == p.g.(locks := p.g.locks + 1, unlocksMatched := p.g.unlocksMatched + 1)
            && v' == p.(g := v'.g, w := v'.w, rec := v'.rec)
            && v'.w == (if p.w.count > 0 then p.w else p.w.(slot := p.prio, raiser := NO_RAISER))
            && v'.rec == (if p.w.count > 0 then p.rec else p.rec.(saved := p.prio, hasSaved := true))
  {
    var p, locked := Paid(cfg, v), LockCall(cfg, v, t);
    assert !Refused(locked, t) && Paid(cfg, locked) == locked;
  }

  /** An unmatched unlock that is let in at count 0, of a thread that is owed nothing and has
      no level but region levels, changes nothing but, if the thread reads elevated, its
      priority: to what it saved, or to 0 if it never saved. */
  lemma UnmatchedAtZeroRescues(cfg: Switches, v: Seen, t: nat)
    requires cfg.unmatchedSafe && Orderly(v, t) && CanTake(v.g, t) && v.depth == v.region
    requires v.w.count <= 0 && v.rec.held == 0 && !v.rec.owed
    ensures var v' := UnlockCall(cfg, v, t);
            && v' == v.(prio := v'.prio)
            && (v.prio != ELEVATED ==> v'.prio == v.prio)
            && (v.prio == ELEVATED && v.rec.hasSaved ==> v'.prio == v.rec.saved)
            && (v.prio == ELEVATED && !v.rec.hasSaved ==> v'.prio == 0)
  {}

  /** What an unlock undoes has nothing to do with the guard. */
  lemma UndoneIgnoresGuard(cfg: Switches, v: Seen, t: nat, depth: nat, region: nat, g: Guard)
    ensures Undone(cfg, v.(depth := depth, region := region, g := g), t) ==
            Undone(cfg, v, t).(depth := depth, region := region, g := g)
  {}

  /** The thread's own next `k` steps, with nobody else moving. */
  function RunFor(cfg: Switches, e: Effect, t: nat, k: nat): Effect
    decreases k
  {
    if k == 0 || !Enabled(cfg, e, t, Step) then e
    else RunFor(cfg, RoutineStep(cfg, e, t), t, k - 1)
  }

  /** The same, but only until the thread is out of the body it is in. */
  function BodyFor(cfg: Switches, e: Effect, t: nat, k: nat): Effect
    decreases k
  {
    if k == 0 || !InBody(e.me.pc) then e else BodyFor(cfg, RoutineStep(cfg, e, t), t, k - 1)
  }

  /** A thread back in its own code stays there. */
  lemma {:induction false} RunMore(cfg: Switches, e: Effect, t: nat, n: nat, k: nat)
    requires RunFor(cfg, e, t, n).me.pc == Idle
    ensures RunFor(cfg, e, t, n + k) == RunFor(cfg, e, t, n)
    decreases n
  {
    if n > 0 && Enabled(cfg, e, t, Step) {
      RunMore(cfg, RoutineStep(cfg, e, t), t, n - 1, k);
    }
  }

  /** A body, and what follows it. */
  lemma {:induction false} RunsThrough(cfg: Switches, e: Effect, t: nat, k: nat, n: nat)
    requires var e1 := BodyFor(cfg, e, t, k); !InBody(e1.me.pc) && RunFor(cfg, e1, t, n).me.pc == Idle
    ensures RunFor(cfg, e, t, k + n) == RunFor(cfg, BodyFor(cfg, e, t, k), t, n)
    decreases k
  {
    if k == 0 || !InBody(e.me.pc) {
      RunMore(cfg, e, t, n, k);
    } else {
      RunsThrough(cfg, RoutineStep(cfg, e, t), t, k - 1, n);
    }
  }

  /** A thread in its own code, with the guard's words in order. */
  predicate CanCall(cfg: Switches, e: Effect, t: nat) {
    LocalOk(cfg, e, t) && e.me.pc == Idle
  }

  /** What lock and unlock leave alone of their own thread's locals. */
  predicate SameCall(me: Thread, me': Thread) {
    me'.nested == me.nested && me'.balance == me.balance
  }

  /** Left alone, a lock call computes `LockCall` and returns, within nine steps. */
  lemma LockRuns(cfg: Switches, e: Effect, t: nat, k: nat)
    requires k >= 9 && CanCall(cfg, e, t) && CanTake(e.g, t)
    ensures var e' := RunFor(cfg, CallStep(e, t, CallLock), t, k);
            && e'.me.pc == Idle && !e'.me.nested && e'.me.balance == e.me.balance
            && See(e') == LockCall(cfg, See(e), t)
  {
    var e4 := LockTakes(cfg, CallStep(e, t, CallLock), t, k - 3);
    RaiseRuns(cfg, e4, t, k - 3);
  }

  lemma RaiseRuns(cfg: Switches, e: Effect, t: nat, k: nat)
    requires k >= 6 && e.me.pc == Raising(LkRead) && !e.me.nested
    ensures var e' := RunFor(cfg, e, t, k);
            e'.me.pc == Idle && SameCall(e.me, e'.me) && See(e') == Counted(See(e), t)
  {
    RaiseBody(cfg, e, t, k);
    RunsThrough(cfg, e, t, k, 0);
  }

  /** The first three steps of a lock: it has collected, and holds the guard. */
  lemma LockTakes(cfg: Switches, e: Effect, t: nat, k: nat) returns (e3: Effect)
    requires e.me.pc == Locking(LkCollect) && CanTake(e.g, t)
    ensures RunFor(cfg, e, t, k + 3) == RunFor(cfg, e3, t, k)
    ensures var v := Paid(cfg, See(e));
            && e3.me.pc == Raising(LkRead) && SameCall(e.me, e3.me)
            && See(e3) == Taken(v, t).(g := Taken(v, t).g.(locks := v.g.locks + 1))
  {
    var e1 := LockStep(cfg, e, t);
    assert RunFor(cfg, e, t, k + 3) == RunFor(cfg, e1, t, k + 2);
    e3 := TakeRuns(cfg, e1, t, k);
  }

  lemma TakeRuns(cfg: Switches, e: Effect, t: nat, k: nat) returns (e2: Effect)
    requires e.me.pc == Locking(LkTake) && CanTake(e.g, t)
    requires cfg.collectWithTake && cfg.perThreadRestore ==> !e.me.rec.owed
    ensures RunFor(cfg, e, t, k + 2) == RunFor(cfg, e2, t, k)
    ensures var v := See(e);
            && e2.me.pc == Raising(LkRead) && SameCall(e.me, e2.me)
            && See(e2) == Taken(v, t).(g := Taken(v, t).g.(locks := v.g.locks + 1))
  {
    var e1 := LockStep(cfg, e, t);
    assert RunFor(cfg, e, t, k + 2) == RunFor(cfg, e1, t, k + 1);
    e2 := LockStep(cfg, e1, t);
    assert RunFor(cfg, e1, t, k + 1) == RunFor(cfg, e2, t, k);
  }

  /** A lock that has the guard: the raise, if the count is 0, and the count. */
  lemma RaiseBody(cfg: Switches, e: Effect, t: nat, k: nat)
    requires k >= 6 && e.me.pc == Raising(LkRead)
    ensures var e' := BodyFor(cfg, e, t, k);
            e'.me.pc == AfterLock(e.me) && SameCall(e.me, e'.me) && See(e') == Counted(See(e), t)
  {
    if e.w.count != 0 {
      var e1 := RaiseStep(e);
      assert BodyFor(cfg, e, t, k) == BodyFor(cfg, e1, t, k - 1);
      CountBody(cfg, e1, t, k - 1);
    } else {
      FirstRaiseBody(cfg, e, t, k);
    }
  }

  lemma FirstRaiseBody(cfg: Switches, e: Effect, t: nat, k: nat)
    requires k >= 6 && e.me.pc == Raising(LkRead) && e.w.count == 0
    ensures var e' := BodyFor(cfg, e, t, k);
            e'.me.pc == AfterLock(e.me) && SameCall(e.me, e'.me) && See(e') == Counted(See(e), t)
  {
    var e1 := RaiseStep(e);
    assert BodyFor(cfg, e, t, k) == BodyFor(cfg, e1, t, k - 1);
    var e2 := RaiseStep(e1);
    assert BodyFor(cfg, e1, t, k - 1) == BodyFor(cfg, e2, t, k - 2);
    var e3 := RaiseStep(e2);
    assert BodyFor(cfg, e2, t, k - 2) == BodyFor(cfg, e3, t, k - 3);
    CountBody(cfg, e3, t, k - 3);
  }

  /** The last three steps of a lock. */
  lemma CountBody(cfg: Switches, e: Effect, t: nat, k: nat)
    requires e.me.pc == Counting(LkLoad) && k >= 3
    ensures var e' := BodyFor(cfg, e, t, k);
            && e' == e.(me := e'.me, w := e'.w)
            && e'.me == e.me.(pc := AfterLock(e.me), rec := e'.me.rec, tmp := e'.me.tmp)
            && e'.me.rec == Record(e.me.rec.held + 1,
                                   e.me.rec.hasSaved || e.me.raised,
                                   if e.me.raised then e.me.pre else e.me.rec.saved,
                                   e.me.rec.owed, e.me.rec.owedPrio)
            && e'.w == e.w.(count := e.w.count + 1, heldSum := e.w.heldSum + 1,
                            raiser := if e.me.raised then t else e.w.raiser)
  {
    var e1 := CountStep(e, t);
    assert BodyFor(cfg, e, t, k) == BodyFor(cfg, e1, t, k - 1);
    var e2 := CountStep(e1, t);
    assert BodyFor(cfg, e1, t, k - 1) == BodyFor(cfg, e2, t, k - 2);
    var e3 := CountStep(e2, t);
    assert BodyFor(cfg, e2, t, k - 2) == BodyFor(cfg, e3, t, k - 3);
    assert BodyFor(cfg, e3, t, k - 3) == e3;
  }

  /** The guard is the thread's own. */
  predicate Holding(e: Effect, t: nat) {
    e.me.depth > 0 && e.g.owner == t + 1 && e.g.depth == e.me.depth
  }

  /** An admitted unlock: what it undoes, and its leave. */
  lemma UndoneBody(cfg: Switches, e: Effect, t: nat, k: nat)
    requires k >= 8 && e.me.pc == Admitting(UnNote) && e.owes == NO_RAISER && Holding(e, t)
    ensures var e' := BodyFor(cfg, e, t, k);
            e'.me.pc == AfterUnlock(e.me) && SameCall(e.me, e'.me) && See(e') == Given(Undone(cfg, See(e), t))
  {
    var e2 := NotedBody(cfg, e, t, k);
    if e.w.count <= 0 && cfg.unmatchedSafe {
      ClampBody(cfg, e2, t, k - 2);
    } else {
      DropBody(cfg, e2, t, k - 2);
    }
  }

  /** Its first two steps: the ledger is told, and the count is looked at. */
  lemma NotedBody(cfg: Switches, e: Effect, t: nat, k: nat) returns (e2: Effect)
    requires k >= 8 && e.me.pc == Admitting(UnNote)
    ensures BodyFor(cfg, e, t, k) == BodyFor(cfg, e2, t, k - 2)
    ensures See(e2) == Noted(See(e)) && SameCall(e.me, e2.me) && e2.me.matched == (e.me.rec.held > 0)
    ensures e2.me.pc == if e.w.count <= 0 && cfg.unmatchedSafe then Clamping(UnClamp) else Dropping(UnLoad)
  {
    var e1 := AdmitStep(cfg, e, t);
    assert BodyFor(cfg, e, t, k) == BodyFor(cfg, e1, t, k - 1);
    e2 := ClampStep(cfg, e1);
    assert BodyFor(cfg, e1, t, k - 1) == BodyFor(cfg, e2, t, k - 2);
  }

  lemma ClampBody(cfg: Switches, e: Effect, t: nat, k: nat)
    requires k >= 6 && e.me.pc == Clamping(UnClamp) && Holding(e, t)
    ensures var e' := BodyFor(cfg, e, t, k);
            && e'.me.pc == AfterUnlock(e.me) && SameCall(e.me, e'.me)
            && See(e') == Given(Clamped(See(e), e.me.matched))
  {
    var e1 := ClampStep(cfg, e);
    assert BodyFor(cfg, e, t, k) == BodyFor(cfg, e1, t, k - 1);
    if e1.me.pc == Clamping(UnRescue) {
      var e2 := ClampStep(cfg, e1);
      assert BodyFor(cfg, e1, t, k - 1) == BodyFor(cfg, e2, t, k - 2);
      LeaveBody(cfg, e2, t, k - 2);
    } else {
      LeaveBody(cfg, e1, t, k - 1);
    }
  }

  lemma DropBody(cfg: Switches, e: Effect, t: nat, k: nat)
    requires k >= 6 && e.me.pc == Dropping(UnLoad) && e.owes == NO_RAISER && Holding(e, t)
    ensures var e' := BodyFor(cfg, e, t, k);
            e'.me.pc == AfterUnlock(e.me) && SameCall(e.me, e'.me) && See(e') == Given(Dropped(cfg, See(e), t))
  {
    var e1 := DropStep(e);
    assert BodyFor(cfg, e, t, k) == BodyFor(cfg, e1, t, k - 1);
    var e2 := DropStep(e1);
    assert BodyFor(cfg, e1, t, k - 1) == BodyFor(cfg, e2, t, k - 2);
    var e3 := DropStep(e2);
    assert BodyFor(cfg, e2, t, k - 2) == BodyFor(cfg, e3, t, k - 3);
    if e.w.count - 1 != 0 {
      LeaveBody(cfg, e3, t, k - 3);
    } else {
      ZeroBody(cfg, e3, t, k - 3);
    }
  }

  /** The count is zero: the raise ends, here or owed. */
  lemma ZeroBody(cfg: Switches, e: Effect, t: nat, k: nat)
    requires k >= 3 && e.me.pc == Undoing(UnOwe) && e.owes == NO_RAISER && Holding(e, t)
    ensures var e' := BodyFor(cfg, e, t, k);
            e'.me.pc == AfterUnlock(e.me) && SameCall(e.me, e'.me) && See(e') == Given(Ended(cfg, See(e), t))
  {
    var e1 := UndoStep(cfg, e, t);
    assert BodyFor(cfg, e, t, k) == BodyFor(cfg, e1, t, k - 1);
    if Crosses(cfg, e.w, t) {
      LeaveBody(cfg, e1, t, k - 1);
    } else {
      var e2 := UndoStep(cfg, e1, t);
      assert BodyFor(cfg, e1, t, k - 1) == BodyFor(cfg, e2, t, k - 2);
      LeaveBody(cfg, e2, t, k - 2);
    }
  }

  lemma LeaveBody(cfg: Switches, e: Effect, t: nat, k: nat)
    requires e.me.pc == Undoing(UnLeave) && k >= 1 && Holding(e, t)
    ensures var e' := BodyFor(cfg, e, t, k);
            e'.me.pc == AfterUnlock(e.me) && SameCall(e.me, e'.me) && See(e') == Given(See(e))
  {
    var e1 := UndoStep(cfg, e, t);
    assert BodyFor(cfg, e, t, k) == BodyFor(cfg, e1, t, k - 1);
    assert BodyFor(cfg, e1, t, k - 1) == e1;
  }

  /** Left alone, an unlock call computes `UnlockCall` and returns, within ten steps. */
  lemma UnlockRuns(cfg: Switches, e: Effect, t: nat, k: nat)
    requires k >= 10 && CanCall(cfg, e, t) && e.owes == NO_RAISER
    ensures var e' := RunFor(cfg, CallStep(e, t, CallUnlock), t, k);
            && e'.me.pc == Idle && !e'.me.nested && e'.me.balance == e.me.balance
            && See(e') == UnlockCall(cfg, See(e), t)
  {
    var e3 := AdmitRuns(cfg, CallStep(e, t, CallUnlock), t, k - 2);
    if e3.me.pc != Idle {
      UndoneRuns(cfg, e3, t, k - 2);
    }
  }

  lemma UndoneRuns(cfg: Switches, e: Effect, t: nat, k: nat)
    requires k >= 8 && e.me.pc == Admitting(UnNote) && !e.me.nested && e.owes == NO_RAISER && Holding(e, t)
    ensures var e' := RunFor(cfg, e, t, k);
            e'.me.pc == Idle && SameCall(e.me, e'.me) && See(e') == Given(Undone(cfg, See(e), t))
  {
    UndoneBody(cfg, e, t, k);
    RunsThrough(cfg, e, t, k, 0);
  }

  /** The first two steps of an unlock: it has collected, and is let in or refused. */
  lemma AdmitRuns(cfg: Switches, e: Effect, t: nat, k: nat) returns (e2: Effect)
    requires LocalOk(cfg, e, t) && e.me.pc == Admitting(UnCollect) && e.owes == NO_RAISER
    ensures RunFor(cfg, e, t, k + 2) == RunFor(cfg, e2, t, k)
    ensures var v := Paid(cfg, See(e));
            && SameCall(e.me, e2.me) && e2.owes == NO_RAISER
            && if Refused(v, t) then e2.me.pc == AfterUnlock(e.me) && See(e2) == v
               else e2.me.pc == Admitting(UnNote) && See(e2) == Admitted(v, t) && Holding(e2, t)
  {
    var e1 := AdmitStep(cfg, e, t);
    assert RunFor(cfg, e, t, k + 2) == RunFor(cfg, e1, t, k + 1);
    e2 := AdmitStep(cfg, e1, t);
    AdmitsOrRefuses(cfg, e1, t, k);
  }

  lemma AdmitsOrRefuses(cfg: Switches, e: Effect, t: nat, k: nat)
    requires LocalOk(cfg, e, t) && e.me.pc == Admitting(UnEnter)
    ensures var v, e1 := See(e), AdmitStep(cfg, e, t);
            && RunFor(cfg, e, t, k + 1) == RunFor(cfg, e1, t, k)
            && SameCall(e.me, e1.me) && e1.owes == e.owes
            && if Refused(v, t) then e1.me.pc == AfterUnlock(e.me) && See(e1) == v
               else e1.me.pc == Admitting(UnNote) && See(e1) == Admitted(v, t) && Holding(e1, t)
  {}

  // ------------------------------------------------------------ calls as part of a run

  /** `k` moves of thread `t` and nobody else. */
  function Steps(t: nat, k: nat): seq<Move> {
    seq(k, _ => Move(t, Step))
  }

  /** Can some schedule lead from `s` to `s'`? */
  ghost predicate Reaches(cfg: Switches, s: State, s': State) {
    exists moves :: Exec(cfg, s, moves) == s'
  }

  lemma ReachesOn(cfg: Switches, s: State, s1: State, moves: seq<Move>)
    requires Reaches(cfg, s, s1)
    ensures Reaches(cfg, s, Exec(cfg, s1, moves))
  {
    var before :| Exec(cfg, s, before) == s1;
    ExecAppend(cfg, s, before, moves);
    assert Exec(cfg, s, before + moves) == Exec(cfg, s1, moves);
  }

  lemma ExecOne(cfg: Switches, s: State, m: Move)
    ensures Exec(cfg, s, [m]) == Do(cfg, s, m)
  {
    assert [m][..0] == [];
  }

  /** Two effects of one thread, one after the other: the first may leave somebody owed, and
      then the second changes nothing about that. */
  lemma ApplyTwice(s: State, t: nat, e: Effect, f: Effect)
    requires t < |s.th| && e.owes != t && f.owes != t && e.owes < |s.th|
    requires e.owes == NO_RAISER || f.owes == e.owes
    ensures var later := if e.owes == NO_RAISER then f else f.(owes := NO_RAISER);
            Apply(Apply(s, t, e), t, later) == Apply(s, t, f)
    ensures Before(Apply(s, t, e), t) == e.(owes := NO_RAISER)
  {
    assert s.th[t := e.me][t := f.me] == s.th[t := f.me];
    if 0 <= e.owes {
      var owed := MakeOwed(s.th[e.owes]);
      assert s.th[t := e.me][e.owes := owed][t := f.me] == s.th[t := f.me][e.owes := owed];
    }
  }

  /** Steps of one thread, taken in the run, are that thread's own run. */
  lemma {:induction false} StepsExec(cfg: Switches, s: State, t: nat, k: nat)
    requires t < |s.th| && s.w.raiser < |s.th|
    ensures Exec(cfg, s, Steps(t, k)) == Apply(s, t, RunFor(cfg, Before(s, t), t, k))
    ensures RunFor(cfg, Before(s, t), t, k).owes != t
    decreases k
  {
    var e, m := Before(s, t), Move(t, Step);
    if k == 0 {
      assert s.th[t := s.th[t]] == s.th;
    } else {
      assert Steps(t, k) == [m] + Steps(t, k - 1);
      ExecAppend(cfg, s, [m], Steps(t, k - 1));
      ExecOne(cfg, s, m);
      if CanDo(cfg, s, m) {
        var e1 := RoutineStep(cfg, e, t);
        var f := RunFor(cfg, e1, t, k - 1);
        assert RunFor(cfg, e, t, k) == f;
        PlainStep(cfg, e, t);
        ApplyTwice(s, t, e1, e1);
        StepsExec(cfg, Apply(s, t, e1), t, k - 1);
        if e1.owes != NO_RAISER {
          OwedRuns(cfg, e1, t, k - 1);
        }
        ApplyTwice(s, t, e1, f);
      } else {
        StepsExec(cfg, s, t, k - 1);
        assert RunFor(cfg, e, t, k - 1) == e;
      }
    }
  }

  /** A routine leaves somebody owed only when all it has yet to do is to leave. */
  lemma PlainStep(cfg: Switches, e: Effect, t: nat)
    requires e.owes == NO_RAISER && e.me.pc != Idle
    ensures var e' := RoutineStep(cfg, e, t);
            && (e'.w.raiser == e.w.raiser || e'.w.raiser == t || e'.w.raiser == NO_RAISER)
            && (e'.owes != NO_RAISER ==>
                  e'.me.pc == Undoing(UnLeave) && e'.owes == e.w.raiser && e'.owes >= 0 && e'.owes != t)
  {
    PcCases(e.me.pc);
  }

  lemma {:induction false} OwedRuns(cfg: Switches, e: Effect, t: nat, k: nat)
    requires e.me.pc == Undoing(UnLeave) || e.me.pc == Leaving(OuterLeave) || e.me.pc == Idle
    ensures RunFor(cfg, e.(owes := NO_RAISER), t, k) == RunFor(cfg, e, t, k).(owes := NO_RAISER)
    ensures RunFor(cfg, e, t, k).owes == e.owes
    decreases k
  {
    if k > 0 && e.me.pc != Idle {
      OwedStep(cfg, e, t);
      OwedRuns(cfg, RoutineStep(cfg, e, t), t, k - 1);
    }
  }

  lemma OwedStep(cfg: Switches, e: Effect, t: nat)
    requires e.me.pc == Undoing(UnLeave) || e.me.pc == Leaving(OuterLeave)
    ensures var e' := RoutineStep(cfg, e, t);
            && RoutineStep(cfg, e.(owes := NO_RAISER), t) == e'.(owes := NO_RAISER) && e'.owes == e.owes
            && (e'.me.pc == Leaving(OuterLeave) || e'.me.pc == Idle)
  {}

  /** A whole lock, a whole unlock, and the end of a wait, as schedules. */
  function LockMoves(t: nat): seq<Move> { [Move(t, CallLock)] + Steps(t, 9) }

  function UnlockMoves(t: nat): seq<Move> { [Move(t, CallUnlock)] + Steps(t, 10) }

  function WakeMoves(t: nat): seq<Move> { [Move(t, Wake)] + Steps(t, 2) }

  /** Thread `t` is in its own code in an orderly state. */
  predicate CallReady(cfg: Switches, s: State, t: nat) {
    GuardInv(cfg, s) && s.w.raiser < |s.th| && t < |s.th| && s.th[t].pc == Idle
  }

  lemma CallReadyOk(cfg: Switches, s: State, t: nat)
    requires CallReady(cfg, s, t)
    ensures CanCall(cfg, Before(s, t), t)
  {
    assert ThreadOk(cfg, s.th[t]) && s.th[t].depth == DueDepth(s.g, t);
  }

  /** A whole call in a run: its schedule is the thread's own run of the call. */
  lemma CallInRun(cfg: Switches, s: State, t: nat, act: Act, k: nat)
    requires CallReady(cfg, s, t) && act != Step && act != Block && act != Wake
    ensures var moves := [Move(t, act)] + Steps(t, k);
            var f := RunFor(cfg, CallStep(Before(s, t), t, act), t, k);
            GuardInv(cfg, Exec(cfg, s, moves)) && Exec(cfg, s, moves) == Apply(s, t, f) && f.owes != t
  {
    CallReadyOk(cfg, s, t);
    var e1 := CallStep(Before(s, t), t, act);
    ExclusionAlways(cfg, s, [Move(t, act)] + Steps(t, k));
    ExecAppend(cfg, s, [Move(t, act)], Steps(t, k));
    ExecOne(cfg, s, Move(t, act));
    ApplyTwice(s, t, e1, e1);
    StepsExec(cfg, Apply(s, t, e1), t, k);
    ApplyTwice(s, t, e1, RunFor(cfg, e1, t, k));
  }

  /** A whole lock in a run. */
  lemma LockInRun(cfg: Switches, s: State, t: nat)
    requires CallReady(cfg, s, t) && CanTake(s.g, t)
    ensures var s' := Exec(cfg, s, LockMoves(t));
            && GuardInv(cfg, s') && |s'.th| == |s.th|
            && s'.th[t].pc == Idle
            && See(Before(s', t)) == LockCall(cfg, See(Before(s, t)), t)
            && forall u :: 0 <= u < |s.th| && u != t ==> s'.th[u] == s.th[u]
  {
    CallReadyOk(cfg, s, t);
    CallInRun(cfg, s, t, CallLock, 9);
    LockRuns(cfg, Before(s, t), t, 9);
  }

  /** A whole unlock in a run. */
  lemma UnlockInRun(cfg: Switches, s: State, t: nat)
    requires CallReady(cfg, s, t)
    ensures var s', v := Exec(cfg, s, UnlockMoves(t)), UnlockCall(cfg, See(Before(s, t)), t);
            && GuardInv(cfg, s') && |s'.th| == |s.th|
            && s'.th[t].pc == Idle
            && See(Before(s', t)) == v.(owes := NO_RAISER)
            && v.owes != t
            && forall u :: 0 <= u < |s.th| && u != t ==>
                 s'.th[u] == if u == v.owes then MakeOwed(s.th[u]) else s.th[u]
  {
    CallReadyOk(cfg, s, t);
    CallInRun(cfg, s, t, CallUnlock, 10);
    UnlockRuns(cfg, Before(s, t), t, 10);
  }
}
