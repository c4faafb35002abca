/** The drop-all loop of sub_001437B0, `while own priority == 15: unlock`, run by a thread
    that the guard lets in: exactly when it ends, and how soon. */
module AdxSpin {
  import opened AdxModel
  import opened AdxCalls

  function Pass(cfg: Switches, v: Seen, t: nat): Seen {
    UnlockCall(cfg, v, t).(owes := NO_RAISER)
  }

  /** The state after `n` passes. */
  function Passes(cfg: Switches, v: Seen, t: nat, n: nat): Seen {
    if n == 0 then v else Pass(cfg, Passes(cfg, v, t, n - 1), t)
  }

  /** Both fixes on, the guard to be had, and its words in order. */
  predicate SpinReady(cfg: Switches, v: Seen, t: nat) {
    CanTake(v.g, t) && InOrder(cfg, v, t)
  }

  predicate InOrder(cfg: Switches, v: Seen, t: nat) {
    cfg.perThreadRestore && cfg.unmatchedSafe && Orderly(v, t) && v.w.count >= 0
  }

  /** The condition for the loop to end: the thread's own saved priority is not the
      elevated one, or what it is owed is not and survives the first pass, or the slot's is
      not and will be written to this thread. */
  predicate SpinEnds(cfg: Switches, v: Seen, t: nat) {
    var mine := !Crosses(cfg, v.w, t);
    || !v.rec.hasSaved
    || v.rec.saved != ELEVATED
    || (v.rec.owed && v.rec.owedPrio != ELEVATED && !(v.w.count == 1 && mine && v.w.slot == ELEVATED))
    || (v.w.count > 0 && mine && v.w.slot != ELEVATED)
  }

  predicate SpinGoes(cfg: Switches, v: Seen, t: nat) {
    v.prio == ELEVATED ==> SpinEnds(cfg, v, t)
  }

  /** The most passes the loop can need: one more than the larger of the refcount and the
      thread's own held locks. */
  function PassesLeft(v: Seen): nat {
    if v.prio != ELEVATED then 0
    else 1 + if v.w.count > v.rec.held then v.w.count else v.rec.held
  }

  /** One pass, without the guard: an unlock that is let in keeps the guard to be had. */
  lemma PassUndoes(cfg: Switches, v: Seen, t: nat)
    requires SpinReady(cfg, v, t)
    ensures var v', u := Pass(cfg, v, t), Undone(cfg, Paid(cfg, v), t);
            SpinReady(cfg, v', t) && v'.prio == u.prio && v'.rec == u.rec && v'.w == u.w
  {
    var p := Paid(cfg, v);
    var a := Admitted(p, t);
    UndoneIgnoresGuard(cfg, p, t, a.depth, a.region, a.g);
    assert a == p.(depth := a.depth, region := a.region, g := a.g);
  }

  /** One pass of a loop that can end ends it, or uses something up and still can end. */
  lemma PassProgress(cfg: Switches, v: Seen, t: nat)
    requires SpinReady(cfg, v, t) && v.prio == ELEVATED && SpinEnds(cfg, v, t)
    ensures var v' := Pass(cfg, v, t);
            SpinReady(cfg, v', t) && SpinGoes(cfg, v', t) && PassesLeft(v') < PassesLeft(v)
  {
    PassUndoes(cfg, v, t);
    if v.w.count == 0 {
      ClampProgress(cfg, v, t);
    } else {
      DropProgress(cfg, v, t);
    }
  }

  lemma ClampProgress(cfg: Switches, v: Seen, t: nat)
    requires SpinReady(cfg, v, t) && v.prio == ELEVATED && SpinEnds(cfg, v, t) && v.w.count == 0
    ensures var u := Undone(cfg, Paid(cfg, v), t);
            SpinGoes(cfg, u, t) && PassesLeft(u) < PassesLeft(v)
  {}

  lemma DropProgress(cfg: Switches, v: Seen, t: nat)
    requires SpinReady(cfg, v, t) && v.prio == ELEVATED && SpinEnds(cfg, v, t) && v.w.count > 0
    ensures var u := Undone(cfg, Paid(cfg, v), t);
            SpinGoes(cfg, u, t) && PassesLeft(u) < PassesLeft(v)
  {}

  /** One pass of a loop that cannot end leaves it so. */
  lemma PassStuck(cfg: Switches, v: Seen, t: nat)
    requires SpinReady(cfg, v, t) && v.prio == ELEVATED && !SpinEnds(cfg, v, t)
    ensures var v' := Pass(cfg, v, t);
            SpinReady(cfg, v', t) && v'.prio == ELEVATED && !SpinEnds(cfg, v', t)
  {
    PassUndoes(cfg, v, t);
  }

  /** The loop after `n` passes: it goes on only if it can end, and every pass so far has
      used up something it may need. */
  predicate Spinning(cfg: Switches, v: Seen, now: Seen, t: nat, n: nat) {
    && now == Passes(cfg, v, t, n)
    && SpinReady(cfg, now, t) && SpinGoes(cfg, now, t) && PassesLeft(now) + n <= PassesLeft(v)
  }

  lemma NextPass(cfg: Switches, v: Seen, now: Seen, t: nat, n: nat)
    requires Spinning(cfg, v, now, t, n) && now.prio == ELEVATED
    ensures Spinning(cfg, v, Pass(cfg, now, t), t, n + 1) && PassesLeft(Pass(cfg, now, t)) < PassesLeft(now)
  {
    PassProgress(cfg, now, t);
    assert Passes(cfg, v, t, n + 1) == Pass(cfg, now, t);
  }

  lemma {:induction false} SpinRuns(cfg: Switches, v: Seen, t: nat, n: nat)
    requires SpinReady(cfg, v, t) && SpinEnds(cfg, v, t)
    requires forall k :: 0 <= k < n ==> Passes(cfg, v, t, k).prio == ELEVATED
    ensures Spinning(cfg, v, Passes(cfg, v, t, n), t, n)
  {
    if n > 0 {
      var now := Passes(cfg, v, t, n - 1);
      assert now.prio == ELEVATED;
      SpinRuns(cfg, v, t, n - 1);
      NextPass(cfg, v, now, t, n - 1);
    }
  }

  /** A loop that can end is over within `PassesLeft` passes. */
  lemma SpinExits(cfg: Switches, v: Seen, t: nat)
    requires SpinReady(cfg, v, t) && SpinEnds(cfg, v, t)
    ensures exists n :: 0 <= n <= PassesLeft(v) && Passes(cfg, v, t, n).prio != ELEVATED
  {
    if forall k :: 0 <= k < PassesLeft(v) + 1 ==> Passes(cfg, v, t, k).prio == ELEVATED {
      SpinRuns(cfg, v, t, PassesLeft(v) + 1);
    }
  }

  lemma {:induction false} SpinStuck(cfg: Switches, v: Seen, t: nat, n: nat)
    requires SpinReady(cfg, v, t) && v.prio == ELEVATED && !SpinEnds(cfg, v, t)
    ensures Passes(cfg, v, t, n).prio == ELEVATED
    ensures SpinReady(cfg, Passes(cfg, v, t, n), t) && !SpinEnds(cfg, Passes(cfg, v, t, n), t)
  {
    if n > 0 {
      SpinStuck(cfg, v, t, n - 1);
      PassStuck(cfg, Passes(cfg, v, t, n - 1), t);
    }
  }

  /** The loop of an elevated thread ends if and only if `SpinEnds` held when it began. */
  lemma SpinEndsExactly(cfg: Switches, v: Seen, t: nat)
    requires SpinReady(cfg, v, t) && v.prio == ELEVATED
    ensures SpinEnds(cfg, v, t) <==> exists n: nat :: Passes(cfg, v, t, n).prio != ELEVATED
  {
    if SpinEnds(cfg, v, t) {
      SpinExits(cfg, v, t);
    } else {
      forall n: nat
        ensures Passes(cfg, v, t, n).prio == ELEVATED
      {
        SpinStuck(cfg, v, t, n);
      }
    }
  }

  // ------------------------------------------------------------ with other threads about

  /** What other threads may make of a thread's view between two of its passes: all but its
      priority, its own locks and its own saved priority. They may leave it owed anything,
      rewrite the slot, take the refcount up, and take the guard. */
  predicate Between(cfg: Switches, v: Seen, v': Seen, t: nat) {
    && InOrder(cfg, v', t)
    && v'.prio == v.prio && v'.rec.held == v.rec.held
    && v'.rec.hasSaved == v.rec.hasSaved && v'.rec.saved == v.rec.saved
  }

  /** A run of the loop among other threads: each view but the last is elevated, and becomes
      the next by one pass, refused or let in, and whatever others do after it. */
  predicate SpinAmongOthers(cfg: Switches, vs: seq<Seen>, t: nat) {
    && vs != [] && InOrder(cfg, vs[0], t)
    && (forall k :: 0 <= k < |vs| - 1 ==> vs[k].prio == ELEVATED)
    && (forall k :: 0 <= k < |vs| - 1 ==> NextView(cfg, vs, k, t))
  }

  predicate NextView(cfg: Switches, vs: seq<Seen>, k: nat, t: nat)
    requires k + 1 < |vs|
  {
    Between(cfg, Pass(cfg, vs[k], t), vs[k + 1], t)
  }

  predicate SavedIsLow(v: Seen) {
    !v.rec.hasSaved || v.rec.saved != ELEVATED
  }

  /** How far the others set the loop back: a refused pass, and by how much they took the
      refcount up behind one. */
  function SetBack(cfg: Switches, v: Seen, v': Seen, t: nat): nat {
    (if CanTake(v.g, t) then 0 else 1)
    + (if v'.w.count > Pass(cfg, v, t).w.count then v'.w.count - Pass(cfg, v, t).w.count else 0)
  }

  function SetBacks(cfg: Switches, vs: seq<Seen>, t: nat): nat {
    if |vs| <= 1 then 0 else SetBack(cfg, vs[0], vs[1], t) + SetBacks(cfg, vs[1..], t)
  }

  /** Spin exit, other threads included: a thread whose own saved priority is not the elevated
      one is through the loop within one pass more than the larger of the refcount and its
      own held locks, and one more for every pass that is refused and for every lock by
      which the others take the refcount up meanwhile. */
  lemma {:induction false} SpinExitsAmongOthers(cfg: Switches, vs: seq<Seen>, t: nat)
    requires SpinAmongOthers(cfg, vs, t) && SavedIsLow(vs[0])
    ensures |vs| - 1 <= PassesLeft(vs[0]) + SetBacks(cfg, vs, t)
  {
    if |vs| > 1 {
      assert NextView(cfg, vs, 0, t);
      PassOrSetBack(cfg, vs[0], vs[1], t);
      var rest := vs[1..];
      forall k | 0 <= k < |rest| - 1
        ensures rest[k].prio == ELEVATED && NextView(cfg, rest, k, t)
      {
        assert NextView(cfg, vs, k + 1, t);
      }
      SpinExitsAmongOthers(cfg, rest, t);
    }
  }

  lemma PassOrSetBack(cfg: Switches, v: Seen, v': Seen, t: nat)
    requires InOrder(cfg, v, t) && v.prio == ELEVATED && SavedIsLow(v) && Between(cfg, Pass(cfg, v, t), v', t)
    ensures SavedIsLow(v') && PassesLeft(v') < PassesLeft(v) + SetBack(cfg, v, v', t)
  {
    if CanTake(v.g, t) {
      PassProgress(cfg, v, t);
      PassUndoes(cfg, v, t);
    } else {
      PassRefused(cfg, v, t);
    }
  }

  lemma PassRefused(cfg: Switches, v: Seen, t: nat)
    requires InOrder(cfg, v, t) && !CanTake(v.g, t) && v.prio == ELEVATED
    ensures var p := Pass(cfg, v, t);
            && PassesLeft(p) <= PassesLeft(v)
            && p.rec.hasSaved == v.rec.hasSaved && p.rec.saved == v.rec.saved
  {}
}
