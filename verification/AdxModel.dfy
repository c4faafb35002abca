/** The ADX lock as a transition system: any number of host threads, each with a
    program counter inside CRI's lock, unlock and outer-word routines and inside a
    blocking kernel wait.

    One step is one `g_m` or `g_pm` critical section, or one access to a shared
    guest word (the refcount 0x25EFA0, the slot 0x27D0F8, the outer word 0x25EFEC).
    Work on a thread's own locals, and on its own priority, which no other thread
    touches, is folded into the step beside it. No body is assumed atomic.

    Thread `i` carries the guard id `i + 1`; 0 means the guard is free. */
module AdxModel {

  /** What GetThreadPriority reads for a raised thread, and the value the lock raises to. */
  const ELEVATED: int := 15

  /** `adx_guard.c`'s ledger has this many records. */
  const MAX_THREADS: nat := 64

  /** "No thread": the value of `g_raiser` when no raise is outstanding. */
  const NO_RAISER: int := -1

  /** The run-time switches. RECOMP_ADX_SERIALIZE is on and RECOMP_ADX_LOCK_STEAL is
      off throughout. `collectWithTake` is not a switch of the program: when set, a lock
      collects what it is owed in the same step that takes the guard. */
  datatype Switches = Switches(
    perThreadRestore: bool,
    unmatchedSafe: bool,
    outerRegion: bool,
    collectWithTake: bool)

  /** sub_0013B0A0: take the guard; raise and save at count 0; count. */
  datatype LockPc = LkCollect | LkTake | LkCounted
  datatype RaisePc = LkRead | LkRaise | LkSlot
  datatype CountPc = LkLoad | LkStore | LkNote

  /** sub_0013B0E0: be admitted; find nothing to undo; drop the count; undo the raise. */
  datatype AdmitPc = UnCollect | UnEnter | UnNote
  datatype ClampPc = UnTest | UnClamp | UnRescue
  datatype DropPc = UnLoad | UnStore | UnZero
  datatype UndoPc = UnOwe | UnSlot | UnLeave

  /** sub_0013C460 and sub_0013C480. */
  datatype EnterPc = OeTake | OeRead | OeLoad | OeStore
  datatype LeavePc = OlTake | OlRead | OlStore | OuterLeave

  /** adx_guard_block_end. */
  datatype WakePc = WkTake | WkSet

  /** `Idle` is the guest's own code, or a DPC running inside the thread's wait. */
  datatype Pc =
    | Idle
    | Locking(lk: LockPc) | Raising(ra: RaisePc) | Counting(co: CountPc)
    | Admitting(ad: AdmitPc) | Clamping(cl: ClampPc) | Dropping(dr: DropPc) | Undoing(un: UndoPc)
    | Entering(en: EnterPc) | Leaving(le: LeavePc)
    | Waking(wk: WakePc)

  /** One `struct adx_trec`. */
  datatype Record = Record(held: nat, hasSaved: bool, saved: int, owed: bool, owedPrio: int)

  datatype Thread = Thread(
    pc: Pc,
    nested: bool,        // inside an outer-word body, past its region_enter
    depth: nat,          // t_depth
    region: nat,         // t_region
    inWait: bool,        // between the kernel's begin and end hooks
    parked: nat,         // the depth that wait has to restore
    prio: int,           // what GetThreadPriority reads on this thread
    rec: Record,
    raised: bool,        // locals of the routine the thread is in
    pre: int,
    matched: bool,
    tmp: int,
    late: bool,          // proof only: owed, at count 0, when the lock took the guard
    balance: int)        // proof only: outer enters minus outer leaves of this thread

  /** `g_owner`, `g_depth`, the live-nesting sums and the counters the trace reads. */
  datatype Guard = Guard(
    owner: nat,
    depth: nat,
    tsum: int,
    parked: int,
    regions: int,
    locks: nat,
    unlocksMatched: nat,
    lost: int)

  /** The guest words and the ledger's globals. */
  datatype Words = Words(count: int, slot: int, outer: int, raiser: int, heldSum: int)

  /** Proof-only history: what has happened so far in this run. */
  datatype History = History(
    unmatchedApplied: int,   // unlocks the ledger calls unmatched that decremented the count
    matchedClamped: int,     // unlocks the ledger calls matched that found count <= 0
    enters: int,
    leaves: int,
    savedElevated: bool,     // some lock wrote ELEVATED into the slot
    savedLate: bool)         // some lock that took the guard late went on to save

  datatype State = State(th: seq<Thread>, g: Guard, w: Words, h: History)

  /** What a thread may be asked to do. Everything but `Step` starts a routine. */
  datatype Act = CallLock | CallUnlock | CallEnter | CallLeave | Block | Wake | Step

  datatype Move = Move(who: nat, act: Act)

  /** A guard nobody holds, with nothing parked, lost or unaccounted for. */
  predicate FreeGuard(g: Guard) {
    && g.owner == 0 && g.depth == 0 && g.tsum == 0 && g.parked == 0 && g.regions == 0
    && g.locks == g.unlocksMatched && g.lost == 0
  }

  predicate ClearWords(w: Words) {
    w.count == 0 && w.outer == 0 && w.raiser == NO_RAISER && w.heldSum == 0
  }

  predicate NoHistory(h: History) {
    && h.unmatchedApplied == 0 && h.matchedClamped == 0 && h.enters == h.leaves
    && !h.savedElevated && !h.savedLate
  }

  /** A thread in its own code that has never used the lock. */
  predicate Unused(me: Thread) {
    && me.pc == Idle && !me.nested && me.depth == 0 && me.region == 0
    && !me.inWait && me.parked == 0
    && me.rec.held == 0 && !me.rec.hasSaved && !me.rec.owed
    && !me.late && me.balance == 0
  }

  /** The start of a run. The slot holds whatever it held. */
  predicate AtRest(s: State) {
    && FreeGuard(s.g) && ClearWords(s.w) && NoHistory(s.h)
    && forall i :: 0 <= i < |s.th| ==> Unused(s.th[i])
  }

  /** The standing assumptions on a run: it starts at rest, every thread has a ledger
      record, and none starts out at the elevated priority. */
  predicate ValidStart(s: State) {
    && AtRest(s)
    && |s.th| <= MAX_THREADS
    && forall i :: 0 <= i < |s.th| ==> s.th[i].prio != ELEVATED
  }

  // ------------------------------------------------------------ one thread's step

  /** What one step makes of its own thread and of everything shared. `owes` is the
      thread the step leaves owed, if any: the only way a step touches another thread. */
  datatype Effect = Effect(me: Thread, g: Guard, w: Words, h: History, owes: int)

  /** Put an effect of thread `t` into the state. */
  function Apply(s: State, t: nat, e: Effect): State
    requires t < |s.th|
  {
    var th := s.th[t := e.me];
    State(if 0 <= e.owes < |th| then th[e.owes := MakeOwed(th[e.owes])] else th, e.g, e.w, e.h)
  }

  function MakeOwed(other: Thread): Thread {
    other.(rec := other.rec.(owed := true, owedPrio := other.rec.saved))
  }

  /** The effect of a step that has not happened yet. */
  function Before(s: State, t: nat): Effect
    requires t < |s.th|
  {
    Effect(s.th[t], s.g, s.w, s.h, NO_RAISER)
  }

  /** Move on to `pc`. */
  function At(e: Effect, pc: Pc): Effect {
    e.(me := e.me.(pc := pc))
  }

  // ------------------------------------------------------------ adx_guard.c

  /** Would `guard_acquire_r` return now? Waiting is a disabled step. */
  predicate CanTake(g: Guard, t: nat) {
    g.owner == 0 || g.owner == t + 1
  }

  /** `guard_acquire_r(0)`, once nobody else is inside. */
  function Take(e: Effect, t: nat): Effect {
    var d := e.me.depth + 1;
    e.(me := e.me.(depth := d), g := e.g.(owner := t + 1, depth := d, tsum := e.g.tsum + 1))
  }

  /** `guard_release_r(0)`: a thread that holds no level changes nothing, and one that is not
      the recorded owner leaves the guard alone. */
  function Give(e: Effect, t: nat): Effect {
    var held := e.me.depth > 0;
    var mine := held && e.g.owner == t + 1;
    var d := if mine && e.g.depth > 0 then e.g.depth - 1 else e.g.depth;
    e.(me := e.me.(depth := if held then e.me.depth - 1 else 0),
       g := e.g.(tsum := if held then e.g.tsum - 1 else e.g.tsum,
                 depth := d,
                 owner := if mine && d == 0 then 0 else e.g.owner))
  }

  /** `adx_guard_block_begin`: a holder lets the whole nesting go and parks it. */
  function BlockBegin(e: Effect, t: nat): Effect {
    var mine := e.me.depth > 0 && e.g.owner == t + 1;
    var d := if mine then e.me.depth else 0;
    e.(me := e.me.(inWait := true, parked := d, depth := e.me.depth - d),
       g := e.g.(owner := if mine then 0 else e.g.owner,
                 depth := if mine then 0 else e.g.depth,
                 tsum := e.g.tsum - d,
                 parked := e.g.parked + d))
  }

  /** The second half of `adx_guard_block_end`: the interrupted nesting overwrites
      whatever the wait's own DPCs left behind, which is counted as lost. */
  function Restore(e: Effect): Effect {
    var lost := e.me.depth - 1;
    e.(me := e.me.(pc := Idle, depth := e.me.parked, parked := 0),
       g := e.g.(depth := e.me.parked,
                 tsum := e.g.tsum + e.me.parked - e.me.depth,
                 parked := e.g.parked - e.me.parked,
                 lost := if lost > 0 then e.g.lost + lost else e.g.lost))
  }

  // ------------------------------------------------------------ the ledger

  /** `adx_prio_take_owed`, with the SetThreadPriority its caller makes of it. */
  function Collect(cfg: Switches, me: Thread): Thread {
    var owed := cfg.perThreadRestore && me.rec.owed;
    me.(prio := if owed then me.rec.owedPrio else me.prio,
        rec := me.rec.(owed := if owed then false else me.rec.owed))
  }

  /** `adx_prio_note_lock`. */
  function NoteLock(e: Effect, t: nat): Effect {
    var rec := e.me.rec;
    e.(me := e.me.(rec := rec.(held := rec.held + 1,
                               saved := if e.me.raised then e.me.pre else rec.saved,
                               hasSaved := rec.hasSaved || e.me.raised)),
       w := e.w.(heldSum := e.w.heldSum + 1, raiser := if e.me.raised then t else e.w.raiser))
  }

  /** `adx_prio_note_unlock`. */
  function NoteUnlock(e: Effect): Effect {
    var matched := e.me.rec.held > 0;
    var drop := if matched then 1 else 0;
    e.(me := e.me.(matched := matched, rec := e.me.rec.(held := e.me.rec.held - drop)),
       w := e.w.(heldSum := e.w.heldSum - drop))
  }

  /** `adx_prio_restore_here` when it answers 0: the raiser is another thread. */
  predicate Crosses(cfg: Switches, w: Words, t: nat) {
    cfg.perThreadRestore && w.raiser >= 0 && w.raiser != t
  }

  /** `adx_prio_restore_here`: forget the raiser, and owe it its own priority if it is
      not the thread that reached zero. */
  function RestoreHere(cfg: Switches, e: Effect, t: nat): Effect {
    e.(w := e.w.(raiser := NO_RAISER),
       owes := if Crosses(cfg, e.w, t) then e.w.raiser else NO_RAISER)
  }

  /** `adx_prio_rescue`, with the SetThreadPriority the unlock makes of it. */
  function Rescue(me: Thread): Thread {
    me.(prio := if me.rec.hasSaved then me.rec.saved else 0)
  }

  // ------------------------------------------------------------ the routines

  /** sub_0013B0A0: collect what is owed, and take the guard. */
  function LockStep(cfg: Switches, e: Effect, t: nat): Effect
    requires e.me.pc.Locking?
  {
    var me := e.me;
    match me.pc.lk
    case LkCollect => e.(me := Collect(cfg, me).(pc := Locking(LkTake)))
    case LkTake =>
      var got := if cfg.collectWithTake then Collect(cfg, me) else me;
      Take(e.(me := got.(pc := Locking(LkCounted), late := got.rec.owed && e.w.count == 0)), t)
    case LkCounted => At(e, Raising(LkRead)).(g := e.g.(locks := e.g.locks + 1))
  }

  /** sub_0013B0A0: at count 0, read the thread's own priority, raise it, and save it. */
  function RaiseStep(e: Effect): Effect
    requires e.me.pc.Raising?
  {
    var me := e.me;
    match me.pc.ra
    case LkRead =>
      var next := if e.w.count != 0 then Counting(LkLoad) else Raising(LkRaise);
      e.(me := me.(pc := next, raised := false, pre := 0))
    case LkRaise =>
      e.(me := me.(pc := Raising(LkSlot), raised := true, pre := me.prio, prio := ELEVATED))
    case LkSlot =>
      At(e, Counting(LkLoad))
      .(w := e.w.(slot := me.pre),
        h := e.h.(savedElevated := e.h.savedElevated || me.pre == ELEVATED,
                  savedLate := e.h.savedLate || me.late))
  }

  /** sub_0013B0A0: count, and tell the ledger. */
  function CountStep(e: Effect, t: nat): Effect
    requires e.me.pc.Counting?
  {
    var me := e.me;
    match me.pc.co
    case LkLoad => e.(me := me.(pc := Counting(LkStore), tmp := e.w.count))
    case LkStore => At(e, Counting(LkNote)).(w := e.w.(count := me.tmp + 1))
    case LkNote => At(NoteLock(e, t), AfterLock(me))
  }

  /** Where a lock and an unlock return to. */
  function AfterLock(me: Thread): Pc {
    if me.nested then Entering(OeLoad) else Idle
  }

  function AfterUnlock(me: Thread): Pc {
    if me.nested then Leaving(OuterLeave) else Idle
  }

  /** sub_0013B0E0: collect what is owed, then be matched above the region levels, or
      let in because the guard is free, or refused. */
  function AdmitStep(cfg: Switches, e: Effect, t: nat): Effect
    requires e.me.pc.Admitting?
  {
    var me := e.me;
    match me.pc.ad
    case UnCollect => e.(me := Collect(cfg, me).(pc := Admitting(UnEnter)))
    case UnEnter =>
      var mine := me.depth > me.region;
      var take := !mine && CanTake(e.g, t);
      var d := if take then me.depth + 1 else me.depth;
      e.(me := me.(pc := if mine || take then Admitting(UnNote) else AfterUnlock(me), depth := d),
         g := e.g.(owner := if take then t + 1 else e.g.owner,
                   depth := if take then d else e.g.depth,
                   tsum := if take then e.g.tsum + 1 else e.g.tsum,
                   unlocksMatched := if mine then e.g.unlocksMatched + 1 else e.g.unlocksMatched))
    case UnNote => At(NoteUnlock(e), Clamping(UnTest))
  }

  /** sub_0013B0E0: at count <= 0 nothing is undone, and a thread that holds nothing and
      still reads elevated is given its own priority back. */
  function ClampStep(cfg: Switches, e: Effect): Effect
    requires e.me.pc.Clamping?
  {
    var me := e.me;
    match me.pc.cl
    case UnTest =>
      At(e, if e.w.count <= 0 && cfg.unmatchedSafe then Clamping(UnClamp) else Dropping(UnLoad))
    case UnClamp =>
      At(e, if !me.matched && me.prio == ELEVATED then Clamping(UnRescue) else Undoing(UnLeave))
      .(h := e.h.(matchedClamped := e.h.matchedClamped + if me.matched then 1 else 0))
    case UnRescue => e.(me := Rescue(me).(pc := Undoing(UnLeave)))
  }

  /** sub_0013B0E0: the decrement and its `jne`. */
  function DropStep(e: Effect): Effect
    requires e.me.pc.Dropping?
  {
    var me := e.me;
    match me.pc.dr
    case UnLoad => e.(me := me.(pc := Dropping(UnStore), tmp := e.w.count))
    case UnStore =>
      At(e, Dropping(UnZero))
      .(w := e.w.(count := me.tmp - 1),
        h := e.h.(unmatchedApplied := e.h.unmatchedApplied + if me.matched then 0 else 1))
    case UnZero => At(e, if e.w.count != 0 then Undoing(UnLeave) else Undoing(UnOwe))
  }

  /** sub_0013B0E0: the count reached zero here; then let the guard go. */
  function UndoStep(cfg: Switches, e: Effect, t: nat): Effect
    requires e.me.pc.Undoing?
  {
    var me := e.me;
    match me.pc.un
    case UnOwe =>
      At(RestoreHere(cfg, e, t), if Crosses(cfg, e.w, t) then Undoing(UnLeave) else Undoing(UnSlot))
    case UnSlot => e.(me := me.(pc := Undoing(UnLeave), prio := e.w.slot))
    case UnLeave => At(Give(e, t), AfterUnlock(me))
  }

  /** How many levels an outer-word body takes. */
  function RegionLevel(cfg: Switches): nat {
    if cfg.outerRegion then 1 else 0
  }

  /** `adx_guard_region_enter`, then on to `pc`. */
  function RegionEnter(cfg: Switches, e: Effect, t: nat, pc: Pc): Effect {
    var k := RegionLevel(cfg);
    var d := e.me.depth + k;
    e.(me := e.me.(pc := pc, nested := true, region := e.me.region + k, depth := d),
       g := e.g.(owner := if k == 1 then t + 1 else e.g.owner,
                 depth := if k == 1 then d else e.g.depth,
                 tsum := e.g.tsum + k,
                 regions := e.g.regions + k))
  }

  /** `adx_guard_region_leave`, then back to the guest. */
  function RegionLeave(cfg: Switches, e: Effect, t: nat): Effect {
    var k := RegionLevel(cfg);
    var held := k == 1 && e.me.depth > 0;
    var mine := held && e.g.owner == t + 1;
    var d := if mine && e.g.depth > 0 then e.g.depth - 1 else e.g.depth;
    e.(me := e.me.(pc := Idle, nested := false,
                   region := if e.me.region >= k then e.me.region - k else 0,
                   depth := if held then e.me.depth - 1 else e.me.depth),
       g := e.g.(tsum := if held then e.g.tsum - 1 else e.g.tsum,
                 depth := d,
                 owner := if mine && d == 0 then 0 else e.g.owner,
                 regions := e.g.regions - k))
  }

  /** sub_0013C460. Without the region switch the two outer-word bodies run on the shared
      word with no guard, as the generated ones did. */
  function EnterStep(cfg: Switches, e: Effect, t: nat): Effect
    requires e.me.pc.Entering?
  {
    var me := e.me;
    match me.pc.en
    case OeTake => RegionEnter(cfg, e, t, Entering(OeRead))
    case OeRead => At(e, if e.w.outer == 0 then Locking(LkCollect) else Entering(OeLoad))
    case OeLoad => e.(me := me.(pc := Entering(OeStore), tmp := e.w.outer))
    case OeStore =>
      e.(me := me.(pc := Leaving(OuterLeave), balance := me.balance + 1),
         w := e.w.(outer := me.tmp + 1), h := e.h.(enters := e.h.enters + 1))
  }

  /** sub_0013C480, and the end both bodies share. */
  function LeaveStep(cfg: Switches, e: Effect, t: nat): Effect
    requires e.me.pc.Leaving?
  {
    var me := e.me;
    match me.pc.le
    case OlTake => RegionEnter(cfg, e, t, Leaving(OlRead))
    case OlRead => e.(me := me.(pc := Leaving(OlStore), tmp := e.w.outer - 1))
    case OlStore =>
      e.(me := me.(pc := if me.tmp == 0 then Admitting(UnCollect) else Leaving(OuterLeave),
                   balance := me.balance - 1),
         w := e.w.(outer := me.tmp), h := e.h.(leaves := e.h.leaves + 1))
    case OuterLeave => RegionLeave(cfg, e, t)
  }

  /** `adx_guard_block_end`. */
  function WakeStep(e: Effect, t: nat): Effect
    requires e.me.pc.Waking?
  {
    match e.me.pc.wk
    case WkTake => At(Take(e, t), Waking(WkSet))
    case WkSet => Restore(e)
  }

  /** One step of whichever routine the thread is in. */
  function RoutineStep(cfg: Switches, e: Effect, t: nat): Effect
    requires e.me.pc != Idle
  {
    match e.me.pc
    case Locking(_) => LockStep(cfg, e, t)
    case Raising(_) => RaiseStep(e)
    case Counting(_) => CountStep(e, t)
    case Admitting(_) => AdmitStep(cfg, e, t)
    case Clamping(_) => ClampStep(cfg, e)
    case Dropping(_) => DropStep(e)
    case Undoing(_) => UndoStep(cfg, e, t)
    case Entering(_) => EnterStep(cfg, e, t)
    case Leaving(_) => LeaveStep(cfg, e, t)
    case Waking(_) => WakeStep(e, t)
  }

  /** A routine begins. */
  function CallStep(e: Effect, t: nat, act: Act): Effect
    requires act != Step
  {
    match act
    case CallLock => At(e, Locking(LkCollect))
    case CallUnlock => At(e, Admitting(UnCollect))
    case CallEnter => At(e, Entering(OeTake))
    case CallLeave => At(e, Leaving(OlTake))
    case Block => BlockBegin(e, t)
    case Wake =>
      e.(me := e.me.(inWait := false, pc := if e.me.parked == 0 then Idle else Waking(WkTake)))
  }

  /** Is the thread at an acquisition that waits for the guard? */
  predicate Queued(cfg: Switches, me: Thread) {
    || me.pc == Locking(LkTake)
    || me.pc == Waking(WkTake)
    || ((me.pc == Entering(OeTake) || me.pc == Leaving(OlTake)) && cfg.outerRegion)
  }

  /** Can `act` happen now? Routines start only from the guest's own code, a wait is not
      entered twice, and a queued thread moves only when the guard is free or its own. */
  predicate Enabled(cfg: Switches, e: Effect, t: nat, act: Act) {
    match act
    case Step => e.me.pc != Idle && (Queued(cfg, e.me) ==> CanTake(e.g, t))
    case Block => e.me.pc == Idle && !e.me.inWait
    case Wake => e.me.pc == Idle && e.me.inWait
    case _ => e.me.pc == Idle
  }

  /** One enabled move, seen from the thread that makes it. */
  function StepOf(cfg: Switches, e: Effect, t: nat, act: Act): Effect
    requires Enabled(cfg, e, t, act)
  {
    if act == Step then RoutineStep(cfg, e, t) else CallStep(e, t, act)
  }

  predicate OnLockSide(pc: Pc) {
    pc.Locking? || pc.Raising? || pc.Counting?
  }

  predicate OnUnlockSide(pc: Pc) {
    pc.Admitting? || pc.Clamping? || pc.Dropping? || pc.Undoing?
  }

  predicate OnOuterSide(pc: Pc) {
    pc.Entering? || pc.Leaving? || pc.Waking?
  }

  /** Every program counter, spelled out: the solver does not enumerate them by itself. */
  lemma PcCases(pc: Pc)
    ensures pc.Locking? ==> pc == Locking(LkCollect) || pc == Locking(LkTake) || pc == Locking(LkCounted)
    ensures pc.Raising? ==> pc == Raising(LkRead) || pc == Raising(LkRaise) || pc == Raising(LkSlot)
    ensures pc.Counting? ==> pc == Counting(LkLoad) || pc == Counting(LkStore) || pc == Counting(LkNote)
    ensures pc.Admitting? ==> pc == Admitting(UnCollect) || pc == Admitting(UnEnter) || pc == Admitting(UnNote)
    ensures pc.Clamping? ==> pc == Clamping(UnTest) || pc == Clamping(UnClamp) || pc == Clamping(UnRescue)
    ensures pc.Dropping? ==> pc == Dropping(UnLoad) || pc == Dropping(UnStore) || pc == Dropping(UnZero)
    ensures pc.Undoing? ==> pc == Undoing(UnOwe) || pc == Undoing(UnSlot) || pc == Undoing(UnLeave)
    ensures pc.Entering? ==>
              pc == Entering(OeTake) || pc == Entering(OeRead) || pc == Entering(OeLoad) || pc == Entering(OeStore)
    ensures pc.Leaving? ==>
              pc == Leaving(OlTake) || pc == Leaving(OlRead) || pc == Leaving(OlStore) || pc == Leaving(OuterLeave)
    ensures pc.Waking? ==> pc == Waking(WkTake) || pc == Waking(WkSet)
  {
    match pc
    case Idle =>
    case Locking(lk) => match lk { case LkCollect => case LkTake => case LkCounted => }
    case Raising(ra) => match ra { case LkRead => case LkRaise => case LkSlot => }
    case Counting(co) => match co { case LkLoad => case LkStore => case LkNote => }
    case Admitting(ad) => match ad { case UnCollect => case UnEnter => case UnNote => }
    case Clamping(cl) => match cl { case UnTest => case UnClamp => case UnRescue => }
    case Dropping(dr) => match dr { case UnLoad => case UnStore => case UnZero => }
    case Undoing(un) => match un { case UnOwe => case UnSlot => case UnLeave => }
    case Entering(en) => match en { case OeTake => case OeRead => case OeLoad => case OeStore => }
    case Leaving(le) => match le { case OlTake => case OlRead => case OlStore => case OuterLeave => }
    case Waking(wk) => match wk { case WkTake => case WkSet => }
  }

  // ------------------------------------------------------------ runs

  predicate CanDo(cfg: Switches, s: State, m: Move) {
    m.who < |s.th| && Enabled(cfg, Before(s, m.who), m.who, m.act)
  }

  /** One move of a schedule; a move that is not enabled changes nothing. */
  function Do(cfg: Switches, s: State, m: Move): State {
    if CanDo(cfg, s, m) then Apply(s, m.who, StepOf(cfg, Before(s, m.who), m.who, m.act)) else s
  }

  /** A whole run: the schedule decides every interleaving. */
  function Exec(cfg: Switches, s: State, moves: seq<Move>): State {
    if moves == [] then s
    else Do(cfg, Exec(cfg, s, moves[..|moves| - 1]), moves[|moves| - 1])
  }

  lemma {:induction false} ExecAppend(cfg: Switches, s: State, a: seq<Move>, b: seq<Move>)
    ensures Exec(cfg, s, a + b) == Exec(cfg, Exec(cfg, s, a), b)
    decreases |b|
  {
    if b == [] {
      assert a + b == a;
    } else {
      var k := |b| - 1;
      assert (a + b)[..|a + b| - 1] == a + b[..k];
      ExecAppend(cfg, s, a, b[..k]);
    }
  }
}
