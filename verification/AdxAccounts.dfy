/** The accounts of the guard and the ledger, kept exactly in every reachable state:
    where every guard level is, what the trace's leak test reads, that the refcount never
    goes below zero, and how far it can drift from the ledger. */
module AdxAccounts {
  import opened AdxModel
  import opened AdxSums
  import opened AdxExclusion

  /** What a body has read is still what the shared words hold. */
  predicate WordsOk(cfg: Switches, me: Thread, w: Words) {
    && (cfg.unmatchedSafe ==> w.count >= 0)
    && match me.pc
       case Raising(ra) => ra == LkRead || (w.count == 0 && (ra == LkSlot ==> me.raised))
       case Counting(co) =>
         if co == LkNote then me.raised <==> w.count == 1
         else (me.raised <==> w.count == 0) && (co == LkStore ==> me.tmp == w.count)
       case Clamping(cl) => cl == UnTest || w.count <= 0
       case Dropping(dr) =>
         dr == UnZero || ((cfg.unmatchedSafe ==> w.count > 0) && (dr == UnStore ==> me.tmp == w.count))
       case Undoing(un) => un == UnLeave || w.count == 0
       case _ => true
  }

  /** A step moves every account by exactly what it does to its own thread. */
  predicate Balanced(e: Effect, e': Effect) {
    && e'.g.tsum - e'.me.depth == e.g.tsum - e.me.depth
    && e'.g.parked - e'.me.parked == e.g.parked - e.me.parked
    && e'.g.regions - e'.me.region == e.g.regions - e.me.region
    && Unplaced(e'.g) - InFlight(e'.me) == Unplaced(e.g) - InFlight(e.me)
    && e'.w.heldSum - e'.me.rec.held == e.w.heldSum - e.me.rec.held
    && Drift(e'.w, e'.h) - Lag(e'.me) == Drift(e.w, e.h) - Lag(e.me)
  }

  /** Guard levels that neither the lock counters nor the levels lost explain. */
  function Unplaced(g: Guard): int { Live(g) - (g.locks - g.unlocksMatched) + g.lost }

  /** The trace's `live`: guard nesting held or parked, without the region levels. */
  function Live(g: Guard): int { g.tsum + g.parked - g.regions }

  /** The ledger's sum against the refcount and the unlocks the two count differently. */
  function Drift(w: Words, h: History): int {
    w.heldSum - (w.count + h.unmatchedApplied - h.matchedClamped)
  }

  // ------------------------------------------------------------ one step

  predicate StepKept(cfg: Switches, e: Effect, e': Effect) {
    Balanced(e, e') && WordsOk(cfg, e'.me, e'.w)
  }

  /** A thread about to make an enabled step, with everything in order. */
  predicate Ready(cfg: Switches, e: Effect, t: nat) {
    LocalOk(cfg, e, t) && WordsOk(cfg, e.me, e.w) && Enabled(cfg, e, t, Step)
  }

  lemma LockBalances(cfg: Switches, e: Effect, t: nat)
    requires Ready(cfg, e, t) && e.me.pc.Locking?
    ensures StepKept(cfg, e, LockStep(cfg, e, t))
  {
    PcCases(e.me.pc);
  }

  lemma RaiseBalances(cfg: Switches, e: Effect)
    requires WordsOk(cfg, e.me, e.w) && e.me.pc.Raising?
    ensures StepKept(cfg, e, RaiseStep(e))
  {
    PcCases(e.me.pc);
  }

  lemma CountBalances(cfg: Switches, e: Effect, t: nat)
    requires Ready(cfg, e, t) && e.me.pc.Counting?
    ensures StepKept(cfg, e, CountStep(e, t))
  {
    PcCases(e.me.pc);
    if e.me.pc == Counting(LkNote) {
      NoteBalances(cfg, e, t);
    }
  }

  /** The ledger counts the lock, and catches up with the refcount. */
  lemma NoteBalances(cfg: Switches, e: Effect, t: nat)
    requires Ready(cfg, e, t) && e.me.pc == Counting(LkNote)
    ensures StepKept(cfg, e, CountStep(e, t))
  {
    var e' := NoteLock(e, t);
    assert e'.w.heldSum - e'.me.rec.held == e.w.heldSum - e.me.rec.held;
    assert Drift(e'.w, e'.h) == Drift(e.w, e.h) + 1;
  }

  lemma AdmitBalances(cfg: Switches, e: Effect, t: nat)
    requires Ready(cfg, e, t) && e.me.pc.Admitting?
    ensures StepKept(cfg, e, AdmitStep(cfg, e, t))
  {
    PcCases(e.me.pc);
  }

  lemma ClampBalances(cfg: Switches, e: Effect)
    requires WordsOk(cfg, e.me, e.w) && e.me.pc.Clamping?
    ensures StepKept(cfg, e, ClampStep(cfg, e))
  {
    PcCases(e.me.pc);
  }

  lemma DropBalances(cfg: Switches, e: Effect)
    requires WordsOk(cfg, e.me, e.w) && e.me.pc.Dropping?
    ensures StepKept(cfg, e, DropStep(e))
  {
    PcCases(e.me.pc);
    if e.me.pc == Dropping(UnStore) {
      DecrementBalances(cfg, e);
    }
  }

  /** The decrement: a matched one is where the refcount catches up with the ledger. */
  lemma DecrementBalances(cfg: Switches, e: Effect)
    requires WordsOk(cfg, e.me, e.w) && e.me.pc == Dropping(UnStore)
    ensures StepKept(cfg, e, DropStep(e))
  {
    var e' := DropStep(e);
    assert e'.w.count == e.w.count - 1 && e'.w.heldSum == e.w.heldSum && e'.me.rec == e.me.rec;
    assert Drift(e'.w, e'.h) - Drift(e.w, e.h) == if e.me.matched then 1 else 0;
  }

  lemma UndoBalances(cfg: Switches, e: Effect, t: nat)
    requires Ready(cfg, e, t) && e.me.pc.Undoing?
    ensures StepKept(cfg, e, UndoStep(cfg, e, t))
  {
    PcCases(e.me.pc);
  }

  lemma EnterBalances(cfg: Switches, e: Effect, t: nat)
    requires Ready(cfg, e, t) && e.me.pc.Entering?
    ensures StepKept(cfg, e, EnterStep(cfg, e, t))
  {
    PcCases(e.me.pc);
  }

  lemma LeaveBalances(cfg: Switches, e: Effect, t: nat)
    requires Ready(cfg, e, t) && e.me.pc.Leaving?
    ensures StepKept(cfg, e, LeaveStep(cfg, e, t))
  {
    PcCases(e.me.pc);
  }

  lemma WakeBalances(cfg: Switches, e: Effect, t: nat)
    requires Ready(cfg, e, t) && e.me.pc.Waking?
    ensures StepKept(cfg, e, WakeStep(e, t))
  {
    PcCases(e.me.pc);
  }

  lemma CallBalances(cfg: Switches, e: Effect, t: nat, act: Act)
    requires LocalOk(cfg, e, t) && WordsOk(cfg, e.me, e.w) && act != Step && Enabled(cfg, e, t, act)
    ensures StepKept(cfg, e, CallStep(e, t, act))
  {}

  lemma StepBalances(cfg: Switches, e: Effect, t: nat, act: Act)
    requires LocalOk(cfg, e, t) && WordsOk(cfg, e.me, e.w) && Enabled(cfg, e, t, act)
    ensures StepKept(cfg, e, StepOf(cfg, e, t, act))
  {
    if act != Step {
      CallBalances(cfg, e, t, act);
    } else {
      match e.me.pc
      case Locking(_) => LockBalances(cfg, e, t);
      case Raising(_) => RaiseBalances(cfg, e);
      case Counting(_) => CountBalances(cfg, e, t);
      case Admitting(_) => AdmitBalances(cfg, e, t);
      case Clamping(_) => ClampBalances(cfg, e);
      case Dropping(_) => DropBalances(cfg, e);
      case Undoing(_) => UndoBalances(cfg, e, t);
      case Entering(_) => EnterBalances(cfg, e, t);
      case Leaving(_) => LeaveBalances(cfg, e, t);
      case Waking(_) => WakeBalances(cfg, e, t);
    }
  }

  // ------------------------------------------------------------ whole runs

  /** The live-nesting words are what they claim to be, and every lock and matched unlock
      is accounted for. */
  predicate LevelsMatch(g: Guard, depths: int, parks: int, regions: int, flights: int) {
    && g.tsum == depths
    && g.parked == parks
    && g.regions == regions
    && Live(g) == g.locks - g.unlocksMatched + flights - g.lost
  }

  predicate LevelsOk(s: State) {
    LevelsMatch(s.g, Sum(Depths, s.th), Sum(Parks, s.th), Sum(Regions, s.th), Sum(Flights, s.th))
  }

  /** The ledger's sum is the sum of its records, and drifts from the refcount exactly by
      what the two count differently. */
  predicate LedgerOk(s: State) {
    && s.w.heldSum == Sum(Helds, s.th)
    && Drift(s.w, s.h) == Sum(Lags, s.th)
  }

  predicate Inv(cfg: Switches, s: State) {
    && GuardInv(cfg, s)
    && LevelsOk(s)
    && LedgerOk(s)
    && forall u :: 0 <= u < |s.th| ==> WordsOk(cfg, s.th[u], s.w)
  }

  lemma NothingHeld(a: Account, s: State)
    requires AtRest(s)
    ensures Sum(a, s.th) == 0
  {
    SumZero(a, s.th);
  }

  lemma NoLevelsHeld(s: State)
    requires AtRest(s)
    ensures LevelsOk(s)
  {
    NothingHeld(Depths, s);
    NothingHeld(Parks, s);
    NothingHeld(Regions, s);
    NothingHeld(Flights, s);
  }

  lemma NothingInLedger(s: State)
    requires AtRest(s)
    ensures LedgerOk(s)
  {
    NothingHeld(Helds, s);
    NothingHeld(Lags, s);
  }

  lemma WordsOkStart(cfg: Switches, s: State)
    requires AtRest(s)
    ensures forall u :: 0 <= u < |s.th| ==> WordsOk(cfg, s.th[u], s.w)
  {}

  lemma InvStart(cfg: Switches, s: State)
    requires AtRest(s)
    ensures Inv(cfg, s)
  {
    GuardInvStart(cfg, s);
    WordsOkStart(cfg, s);
    NoLevelsHeld(s);
    NothingInLedger(s);
  }

  lemma DoKeepsLevels(cfg: Switches, s: State, m: Move)
    requires Inv(cfg, s) && CanDo(cfg, s, m)
    ensures LevelsOk(Do(cfg, s, m))
  {
    var t, e := m.who, Before(s, m.who);
    assert ThreadOk(cfg, s.th[t]) && s.th[t].depth == DueDepth(s.g, t);
    StepBalances(cfg, e, t, m.act);
    var e' := StepOf(cfg, e, t, m.act);
    SumApply(Depths, s, t, e');
    SumApply(Parks, s, t, e');
    SumApply(Regions, s, t, e');
    SumApply(Flights, s, t, e');
  }

  lemma DoKeepsLedger(cfg: Switches, s: State, m: Move)
    requires Inv(cfg, s) && CanDo(cfg, s, m)
    ensures LedgerOk(Do(cfg, s, m))
  {
    var t, e := m.who, Before(s, m.who);
    assert ThreadOk(cfg, s.th[t]) && s.th[t].depth == DueDepth(s.g, t);
    StepBalances(cfg, e, t, m.act);
    var e' := StepOf(cfg, e, t, m.act);
    SumApply(Helds, s, t, e');
    SumApply(Lags, s, t, e');
  }

  lemma DoKeepsWords(cfg: Switches, s: State, m: Move)
    requires Inv(cfg, s) && CanDo(cfg, s, m)
    ensures forall u :: 0 <= u < |s.th| ==> WordsOk(cfg, Do(cfg, s, m).th[u], Do(cfg, s, m).w)
  {
    var t := m.who;
    var e := Before(s, t);
    assert ThreadOk(cfg, s.th[t]) && s.th[t].depth == DueDepth(s.g, t);
    StepBalances(cfg, e, t, m.act);
    var s' := Do(cfg, s, m);
    forall u | 0 <= u < |s.th|
      ensures WordsOk(cfg, s'.th[u], s'.w)
    {
      assert WordsOk(cfg, s.th[u], s.w);
      if u != t && InBody(s.th[u].pc) {
        BodyIsolated(cfg, s, u, m);
      }
    }
  }

  lemma DoKeepsInv(cfg: Switches, s: State, m: Move)
    requires Inv(cfg, s)
    ensures Inv(cfg, Do(cfg, s, m)) && |Do(cfg, s, m).th| == |s.th|
  {
    DoKeepsGuard(cfg, s, m);
    if CanDo(cfg, s, m) {
      DoKeepsLevels(cfg, s, m);
      DoKeepsLedger(cfg, s, m);
      DoKeepsWords(cfg, s, m);
    }
  }

  /** Every state of every run keeps the accounts. */
  lemma {:induction false} AccountsAlways(cfg: Switches, s0: State, moves: seq<Move>)
    requires AtRest(s0)
    ensures Inv(cfg, Exec(cfg, s0, moves))
    ensures |Exec(cfg, s0, moves).th| == |s0.th|
  {
    if moves == [] {
      InvStart(cfg, s0);
    } else {
      var k := |moves| - 1;
      AccountsAlways(cfg, s0, moves[..k]);
      DoKeepsInv(cfg, Exec(cfg, s0, moves[..k]), moves[k]);
    }
  }

  // ------------------------------------------------------------ what the trace reads

  /** `e.leak` of adx_trace_note, with its correction of one for an unlock that was let
      in: such an unlock is noted before its leave. */
  function TraceLeak(s: State, t: nat): int
    requires t < |s.th|
  {
    s.g.locks - s.g.unlocksMatched - Live(s.g) + (if s.th[t].pc == Undoing(UnLeave) then 1 else 0)
  }

  /** Where a thread notes an event: back in its own code, after a lock or a wait hook; past
      collecting what it was owed; after the lock of an outer-word body; before the leave of
      an unlock that was let in; or after a refused one. */
  predicate Notes(pc: Pc) {
    match pc
    case Idle => true
    case Locking(lk) => lk == LkTake
    case Admitting(ad) => ad == UnEnter
    case Entering(en) => en == OeLoad
    case Undoing(un) => un == UnLeave
    case Leaving(le) => le == OuterLeave
    case _ => false
  }

  /** Is another thread between a move of its nesting and the counter that explains it? */
  predicate OtherInFlight(s: State, t: nat) {
    exists u :: 0 <= u < |s.th| && u != t && InFlight(s.th[u]) != 0
  }

  /** Only the owner can be in flight. */
  lemma FlightsAreTheOwners(cfg: Switches, s: State)
    requires GuardInv(cfg, s)
    ensures forall u :: 0 <= u < |s.th| ==> 0 <= InFlight(s.th[u]) <= 1
    ensures forall u :: 0 <= u < |s.th| && InFlight(s.th[u]) != 0 ==> s.g.owner == u + 1
    ensures Sum(Flights, s.th) == if s.g.owner == 0 then 0 else InFlight(s.th[s.g.owner - 1])
  {
    forall u | 0 <= u < |s.th|
      ensures 0 <= InFlight(s.th[u]) <= 1 && (InFlight(s.th[u]) != 0 ==> s.g.owner == u + 1)
    {
      assert ThreadOk(cfg, s.th[u]) && s.th[u].depth == DueDepth(s.g, u);
    }
    if s.g.owner == 0 {
      SumZero(Flights, s.th);
    } else {
      SumOnly(Flights, s.th, s.g.owner - 1);
    }
  }

  /** What a note reads in an orderly state. */
  lemma LeakReading(cfg: Switches, s: State, t: nat)
    requires GuardInv(cfg, s) && LevelsOk(s) && t < |s.th| && Notes(s.th[t].pc)
    ensures TraceLeak(s, t) == s.g.lost - (if OtherInFlight(s, t) then 1 else 0)
    ensures s.g.owner == t + 1 ==> !OtherInFlight(s, t)
  {
    FlightsAreTheOwners(cfg, s);
    NoterInFlight(s.th[t]);
  }

  lemma NoterInFlight(me: Thread)
    requires Notes(me.pc)
    ensures InFlight(me) == if me.pc == Undoing(UnLeave) then 1 else 0
  {
    PcCases(me.pc);
  }

  /** Level conservation, and what the trace's leak test is worth, for any schedule and every
      note, whether its thread holds the guard or not. The reading is the number of levels
      that ends of waits have overwritten, or one less, and it is exact if and only if no
      other thread is in flight; so it is exact for every note a holder makes. */
  lemma LeakIsLostLevels(cfg: Switches, s0: State, moves: seq<Move>, t: nat)
    requires AtRest(s0) && t < |s0.th|
    requires var s := Exec(cfg, s0, moves); |s.th| == |s0.th| && Notes(s.th[t].pc)
    ensures var s := Exec(cfg, s0, moves);
            && TraceLeak(s, t) == s.g.lost - (if OtherInFlight(s, t) then 1 else 0)
            && (s.g.owner == t + 1 ==> !OtherInFlight(s, t))
  {
    AccountsAlways(cfg, s0, moves);
    LeakReading(cfg, Exec(cfg, s0, moves), t);
  }

  /** A wait ends with the calls made inside it finished: the thread holds no level. */
  predicate CallsFinished(s: State, m: Move) {
    m.act == Wake && m.who < |s.th| && s.th[m.who].parked > 0 ==> s.th[m.who].depth == 0
  }

  predicate FinishedRun(cfg: Switches, s0: State, moves: seq<Move>) {
    moves == [] ||
    (var k := |moves| - 1;
     FinishedRun(cfg, s0, moves[..k]) && CallsFinished(Exec(cfg, s0, moves[..k]), moves[k]))
  }

  /** The end of a wait finds nothing to overwrite. */
  predicate NothingToLose(me: Thread) {
    me.pc.Waking? ==> me.depth == if me.pc.wk == WkTake then 0 else 1
  }

  lemma StepLosesNothing(cfg: Switches, e: Effect, t: nat, act: Act)
    requires Enabled(cfg, e, t, act) && NothingToLose(e.me) && e.g.lost == 0
    requires act == Wake && e.me.parked > 0 ==> e.me.depth == 0
    ensures var e' := StepOf(cfg, e, t, act); NothingToLose(e'.me) && e'.g.lost == 0
  {
    PcCases(e.me.pc);
  }

  lemma {:induction false} NothingLost(cfg: Switches, s0: State, moves: seq<Move>)
    requires AtRest(s0) && FinishedRun(cfg, s0, moves)
    ensures var s := Exec(cfg, s0, moves);
            s.g.lost == 0 && forall u :: 0 <= u < |s.th| ==> NothingToLose(s.th[u])
  {
    if moves != [] {
      var k := |moves| - 1;
      NothingLost(cfg, s0, moves[..k]);
      var s := Exec(cfg, s0, moves[..k]);
      if CanDo(cfg, s, moves[k]) {
        assert NothingToLose(s.th[moves[k].who]);
        StepLosesNothing(cfg, Before(s, moves[k].who), moves[k].who, moves[k].act);
      }
    }
  }

  /** So in every run whose waits end with their own calls finished, no level is ever lost,
      and the leak test reads 0, unless another thread is in flight at that moment: then it
      reads -1, which is a false alarm. */
  lemma LeakReadsZero(cfg: Switches, s0: State, moves: seq<Move>, t: nat)
    requires AtRest(s0) && t < |s0.th| && FinishedRun(cfg, s0, moves)
    requires var s := Exec(cfg, s0, moves); |s.th| == |s0.th| && Notes(s.th[t].pc)
    ensures var s := Exec(cfg, s0, moves);
            TraceLeak(s, t) == if OtherInFlight(s, t) then -1 else 0
  {
    LeakIsLostLevels(cfg, s0, moves, t);
    NothingLost(cfg, s0, moves);
  }

  // ------------------------------------------------------------ the refcount

  /** Count floor: with the safe unlock on, no interleaving takes the refcount below 0. */
  lemma CountNeverNegative(cfg: Switches, s0: State, moves: seq<Move>)
    requires AtRest(s0) && cfg.unmatchedSafe && |s0.th| > 0
    ensures Exec(cfg, s0, moves).w.count >= 0
  {
    AccountsAlways(cfg, s0, moves);
    var s := Exec(cfg, s0, moves);
    assert WordsOk(cfg, s.th[0], s.w);
  }

  /** Is no thread inside a lock or unlock body? */
  predicate OutsideBodies(s: State) {
    forall u :: 0 <= u < |s.th| ==> !InBody(s.th[u].pc)
  }

  lemma NobodyLags(th: seq<Thread>)
    requires forall u :: 0 <= u < |th| ==> !InBody(th[u].pc)
    ensures Sum(Lags, th) == 0
  {
    forall k | 0 <= k < |th|
      ensures Weight(Lags, th[k]) == 0
    {
      PcCases(th[k].pc);
    }
    SumZero(Lags, th);
  }

  /** Exact drift: outside bodies the ledger's sum and the refcount differ by exactly the
      unlocks the ledger did not match but the refcount took, less those it matched but
      the refcount refused. */
  lemma DriftIsExact(cfg: Switches, s0: State, moves: seq<Move>)
    requires AtRest(s0) && OutsideBodies(Exec(cfg, s0, moves))
    ensures var s := Exec(cfg, s0, moves);
            && s.w.heldSum == Sum(Helds, s.th)
            && s.w.heldSum == s.w.count + s.h.unmatchedApplied - s.h.matchedClamped
  {
    AccountsAlways(cfg, s0, moves);
    var s := Exec(cfg, s0, moves);
    NobodyLags(s.th);
  }
}
