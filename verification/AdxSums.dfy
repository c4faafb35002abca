/** Sums of a per-thread weight over all threads, which is what every conservation law
    of the guard is stated with. */
module AdxSums {
  import opened AdxModel

  /** What can be added up over the threads. */
  datatype Account =
    | Depths      // guard levels held
    | Parks       // guard levels parked by a wait
    | Regions     // levels of outer-word bodies
    | Flights     // levels `locks - unlocks_matched` does not count
    | Helds       // the ledger's `held`
    | Lags        // how far the ledger lags the refcount
    | Balances    // outer enters minus outer leaves
    | Dues        // how far the lock counters run ahead of the refcount

  /** Levels in `g_tsum` that `locks - unlocks_matched` does not count, or no longer
      counts: a lock between taking the guard and `++locks`, an admitted unlock until its
      leave, and the one level block_end takes before it restores the nesting. */
  function InFlight(me: Thread): int {
    match me.pc
    case Locking(lk) => if lk == LkCounted then 1 else 0
    case Admitting(ad) => if ad == UnNote then 1 else 0
    case Waking(wk) => if wk == WkSet then 1 else 0
    case _ => if me.pc.Clamping? || me.pc.Dropping? || me.pc.Undoing? then 1 else 0
  }

  /** How far the ledger lags the refcount in the middle of a body: a lock counts before
      it is noted, a matched unlock is noted before it is applied or clamped. */
  function Lag(me: Thread): int {
    match me.pc
    case Counting(co) => if co == LkNote then -1 else 0
    case Clamping(cl) => if me.matched && cl != UnRescue then -1 else 0
    case Dropping(dr) => if me.matched && dr != UnZero then -1 else 0
    case _ => 0
  }

  /** How far `locks - unlocks_matched` runs ahead of the refcount in the middle of a body: a
      lock counts itself before the refcount does, a matched unlock likewise, and one that
      was let in without a level of its own owes the refcount a decrement. */
  function Due(me: Thread): int {
    match me.pc
    case Raising(_) => 1
    case Counting(co) => if co == LkNote then 0 else 1
    case Admitting(ad) => if ad == UnNote then -1 else 0
    case Clamping(cl) => if cl == UnRescue then 0 else -1
    case Dropping(dr) => if dr == UnZero then 0 else -1
    case _ => 0
  }

  function Weight(a: Account, me: Thread): int {
    match a
    case Depths => me.depth
    case Parks => me.parked
    case Regions => me.region
    case Flights => InFlight(me)
    case Helds => me.rec.held
    case Lags => Lag(me)
    case Balances => me.balance
    case Dues => Due(me)
  }

  function Sum(a: Account, th: seq<Thread>): int {
    SumFirst(a, th, |th|)
  }

  /** The first `n` threads' share. */
  function SumFirst(a: Account, th: seq<Thread>, n: nat): int
    requires n <= |th|
  {
    if n == 0 then 0 else SumFirst(a, th, n - 1) + Weight(a, th[n - 1])
  }

  /** Replacing one thread moves the sum by the change in that thread's weight. */
  lemma SumUpdate(a: Account, th: seq<Thread>, i: nat, me: Thread)
    requires i < |th|
    ensures Sum(a, th[i := me]) == Sum(a, th) - Weight(a, th[i]) + Weight(a, me)
  {
    SumFirstUpdate(a, th, i, me, |th|);
  }

  lemma {:induction false} SumFirstUpdate(a: Account, th: seq<Thread>, i: nat, me: Thread, n: nat)
    requires i < |th| && n <= |th|
    ensures SumFirst(a, th[i := me], n) ==
            SumFirst(a, th, n) + if i < n then Weight(a, me) - Weight(a, th[i]) else 0
  {
    if n != 0 {
      SumFirstUpdate(a, th, i, me, n - 1);
    }
  }

  /** A weight that is never negative is bounded by its sum, at every thread. */
  lemma SumBounds(a: Account, th: seq<Thread>, i: nat)
    requires i < |th|
    requires forall k :: 0 <= k < |th| ==> Weight(a, th[k]) >= 0
    ensures 0 <= Weight(a, th[i]) <= Sum(a, th)
  {
    SumFirstBounds(a, th, i, |th|);
  }

  lemma {:induction false} SumFirstBounds(a: Account, th: seq<Thread>, i: nat, n: nat)
    requires i < |th| && n <= |th|
    requires forall k :: 0 <= k < |th| ==> Weight(a, th[k]) >= 0
    ensures SumFirst(a, th, n) >= if i < n then Weight(a, th[i]) else 0
  {
    if n != 0 {
      SumFirstBounds(a, th, i, n - 1);
    }
  }

  /** If only thread `i` can weigh anything, the sum is its weight. */
  lemma SumOnly(a: Account, th: seq<Thread>, i: nat)
    requires i < |th|
    requires forall k :: 0 <= k < |th| && k != i ==> Weight(a, th[k]) == 0
    ensures Sum(a, th) == Weight(a, th[i])
  {
    SumFirstOnly(a, th, i, |th|);
  }

  lemma {:induction false} SumFirstOnly(a: Account, th: seq<Thread>, i: nat, n: nat)
    requires i < |th| && n <= |th|
    requires forall k :: 0 <= k < |th| && k != i ==> Weight(a, th[k]) == 0
    ensures SumFirst(a, th, n) == if i < n then Weight(a, th[i]) else 0
  {
    if n != 0 {
      SumFirstOnly(a, th, i, n - 1);
    }
  }

  lemma SumZero(a: Account, th: seq<Thread>)
    requires forall k :: 0 <= k < |th| ==> Weight(a, th[k]) == 0
    ensures Sum(a, th) == 0
  {
    SumFirstZero(a, th, |th|);
  }

  lemma {:induction false} SumFirstZero(a: Account, th: seq<Thread>, n: nat)
    requires n <= |th|
    requires forall k :: 0 <= k < |th| ==> Weight(a, th[k]) == 0
    ensures SumFirst(a, th, n) == 0
  {
    if n != 0 {
      SumFirstZero(a, th, n - 1);
    }
  }

  /** A step moves a sum by the change in its own thread's weight: being made owed
      weighs nothing. */
  lemma SumApply(a: Account, s: State, t: nat, e: Effect)
    requires t < |s.th|
    ensures Sum(a, Apply(s, t, e).th) == Sum(a, s.th) - Weight(a, s.th[t]) + Weight(a, e.me)
  {
    SumUpdate(a, s.th, t, e.me);
    var th := s.th[t := e.me];
    if 0 <= e.owes < |th| {
      SumUpdate(a, th, e.owes, MakeOwed(th[e.owes]));
    }
  }
}
