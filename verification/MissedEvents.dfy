/** `missed_events`: which scheduled pad events never fired, and the worst run of them.
    Times are in hundredths of a second. */
module MissedEvents {

  /** How late or early a fire line may be for its event. */
  const FIRE_TOL: int := 25

  predicate Increasing(s: seq<int>) {
    forall i, j :: 0 <= i < j < |s| ==> s[i] < s[j]
  }

  predicate NonDecreasing(s: seq<int>) {
    forall i, j :: 0 <= i < j < |s| ==> s[i] <= s[j]
  }

  /** Which fire answers for which event, by index. */
  type Matching = map<int, int>

  predicate Near(event: int, fire: int) {
    event - FIRE_TOL <= fire <= event + FIRE_TOL
  }

  /** An assignment of fires from `i` on to events from `k` on: each fire answers for at most
      one event, and within the tolerance. */
  predicate Valid(m: Matching, sched: seq<int>, order: seq<int>, k: nat, i: nat) {
    && (forall a :: a in m ==> k <= a < |sched| && i <= m[a] < |order| && Near(sched[a], order[m[a]]))
    && (forall a, b :: a in m && b in m && a != b ==> m[a] != m[b])
  }

  /** The greedy scan from event `k` and fire `i`. */
  function Greedy(sched: seq<int>, order: seq<int>, k: nat, i: nat): Matching
    requires k <= |sched| && i <= |order|
    decreases |sched| - k, |order| - i
  {
    if k == |sched| then map[]
    else if i < |order| && order[i] < sched[k] - FIRE_TOL then Greedy(sched, order, k, i + 1)
    else if i < |order| && order[i] <= sched[k] + FIRE_TOL then Greedy(sched, order, k + 1, i + 1)[k := i]
    else Greedy(sched, order, k + 1, i)
  }

  lemma {:induction false} GreedyIsValid(sched: seq<int>, order: seq<int>, k: nat, i: nat)
    requires k <= |sched| && i <= |order|
    ensures Valid(Greedy(sched, order, k, i), sched, order, k, i)
    decreases |sched| - k, |order| - i
  {
    if k < |sched| {
      if i < |order| && order[i] < sched[k] - FIRE_TOL {
        GreedyIsValid(sched, order, k, i + 1);
      } else if i < |order| && order[i] <= sched[k] + FIRE_TOL {
        GreedyIsValid(sched, order, k + 1, i + 1);
      } else {
        GreedyIsValid(sched, order, k + 1, i);
      }
    }
  }

  // ------------------------------------------------------------ as many as possible

  lemma SizeWithout(m: Matching, a: int)
    requires a in m
    ensures |m - {a}| == |m| - 1
  {
    assert (m - {a}).Keys == m.Keys - {a};
  }

  lemma SizeWith(m: Matching, a: int, b: int)
    ensures |m[a := b]| == if a in m then |m| else |m| + 1
  {
    assert m[a := b].Keys == m.Keys + {a};
  }

  /** Event `b` gives its fire `i` up and takes event `k`'s. */
  lemma Swap(m: Matching, sched: seq<int>, order: seq<int>, k: nat, i: nat, b: int) returns (m': Matching)
    requires Increasing(sched) && NonDecreasing(order) && Valid(m, sched, order, k, i)
    requires k < |sched| && i < |order| && Near(sched[k], order[i])
    requires k in m && b in m && b != k && m[b] == i
    ensures Valid(m', sched, order, k + 1, i + 1) && |m'| == |m| - 1
  {
    var rest := m - {b} - {k};
    SizeWithout(m, b);
    SizeWithout(m - {b}, k);
    SizeWith(rest, b, m[k]);
    m' := rest[b := m[k]];
    SwapNear(m, sched, order, k, i, b);
  }

  /** Event `b` is later than `k` and takes a fire no earlier than its own: it is as near. */
  lemma SwapNear(m: Matching, sched: seq<int>, order: seq<int>, k: nat, i: nat, b: int)
    requires Increasing(sched) && NonDecreasing(order) && Valid(m, sched, order, k, i)
    requires k < |sched| && i < |order| && Near(sched[k], order[i])
    requires k in m && b in m && b != k && m[b] == i
    ensures k < b < |sched| && i < m[k] < |order| && Near(sched[b], order[m[k]])
  {
    assert sched[k] < sched[b] && order[i] <= order[m[k]];
  }

  /** The exchange: an assignment that gives fire `i` to a later event and a later fire to
      event `k` can give that later fire to that later event instead. So giving `i` to `k`
      costs at most one event. */
  lemma Exchange(m: Matching, sched: seq<int>, order: seq<int>, k: nat, i: nat) returns (m': Matching)
    requires Increasing(sched) && NonDecreasing(order) && Valid(m, sched, order, k, i)
    requires k < |sched| && i < |order| && Near(sched[k], order[i])
    ensures Valid(m', sched, order, k + 1, i + 1) && |m'| >= |m| - 1
  {
    if exists b :: b in m && m[b] == i {
      var b :| b in m && m[b] == i;
      if k in m && b != k {
        m' := Swap(m, sched, order, k, i, b);
      } else {
        m' := m - {b};
        SizeWithout(m, b);
      }
    } else if k in m {
      m' := m - {k};
      SizeWithout(m, k);
    } else {
      m' := m;
    }
  }

  /** No assignment matches more events than the greedy scan. */
  lemma {:induction false} GreedyIsMaximum(m: Matching, sched: seq<int>, order: seq<int>, k: nat, i: nat)
    requires Increasing(sched) && NonDecreasing(order) && Valid(m, sched, order, k, i)
    requires k <= |sched| && i <= |order|
    ensures |m| <= |Greedy(sched, order, k, i)|
    decreases |sched| - k, |order| - i
  {
    if k == |sched| {
      assert forall a :: a !in m;
      assert m.Keys == {};
    } else if i < |order| && order[i] < sched[k] - FIRE_TOL {
      GreedyIsMaximum(m, sched, order, k, i + 1);
    } else if i < |order| && order[i] <= sched[k] + FIRE_TOL {
      var m' := Exchange(m, sched, order, k, i);
      GreedyIsMaximum(m', sched, order, k + 1, i + 1);
      GreedyIsValid(sched, order, k + 1, i + 1);
      SizeWith(Greedy(sched, order, k + 1, i + 1), k, i);
    } else {
      assert k !in m;
      GreedyIsMaximum(m, sched, order, k + 1, i);
    }
  }

  // ------------------------------------------------------------ what is left over

  /** The events up to `n` that the assignment leaves out, in order. */
  function Unmatched(sched: seq<int>, m: Matching, n: nat): seq<int>
    requires n <= |sched|
  {
    if n == 0 then []
    else Unmatched(sched, m, n - 1) + if n - 1 in m then [] else [sched[n - 1]]
  }

  lemma {:induction false} UnmatchedCount(sched: seq<int>, m: Matching, n: nat)
    requires n <= |sched|
    ensures |Unmatched(sched, m, n)| == n - |set a | a in m && 0 <= a < n|
  {
    if n == 0 {
      assert (set a | a in m && 0 <= a < 0) == {};
    } else {
      UnmatchedCount(sched, m, n - 1);
      var before := set a | a in m && 0 <= a < n - 1;
      assert (set a | a in m && 0 <= a < n) == before + if n - 1 in m then {n - 1} else {};
    }
  }

  lemma UnmatchedSize(sched: seq<int>, order: seq<int>, m: Matching)
    requires Valid(m, sched, order, 0, 0)
    ensures |Unmatched(sched, m, |sched|)| == |sched| - |m|
  {
    UnmatchedCount(sched, m, |sched|);
    assert (set a | a in m && 0 <= a < |sched|) == m.Keys;
  }

  lemma TakeNext(m: Matching, rest: Matching, k: int, i: int)
    requires k !in m && k !in rest
    ensures m[k := i] + rest == m + rest[k := i]
  {}

  /** With `m` chosen so far, the greedy scan goes on from event `k` and fire `i`. */
  predicate Follows(sched: seq<int>, order: seq<int>, m: Matching, k: nat, i: nat)
    requires k <= |sched| && i <= |order|
  {
    m + Greedy(sched, order, k, i) == Greedy(sched, order, 0, 0)
  }

  lemma FollowsPast(sched: seq<int>, order: seq<int>, m: Matching, k: nat, i: nat)
    requires k < |sched| && i < |order| && Follows(sched, order, m, k, i)
    requires order[i] < sched[k] - FIRE_TOL
    ensures Follows(sched, order, m, k, i + 1)
  {}

  lemma FollowsTaking(sched: seq<int>, order: seq<int>, m: Matching, k: nat, i: nat)
    requires k < |sched| && i < |order| && Follows(sched, order, m, k, i) && k !in m
    requires sched[k] - FIRE_TOL <= order[i] <= sched[k] + FIRE_TOL
    ensures Follows(sched, order, m[k := i], k + 1, i + 1)
  {
    GreedyIsValid(sched, order, k + 1, i + 1);
    TakeNext(m, Greedy(sched, order, k + 1, i + 1), k, i);
  }

  lemma FollowsWithout(sched: seq<int>, order: seq<int>, m: Matching, k: nat, i: nat)
    requires k < |sched| && i <= |order| && Follows(sched, order, m, k, i)
    requires i == |order| || order[i] > sched[k] + FIRE_TOL
    ensures Follows(sched, order, m, k + 1, i)
  {}

  /** The scan as it is written: one index into the fires, moved along by the events. */
  method Scan(sched: seq<int>, order: seq<int>) returns (unfired: seq<int>, ghost m: Matching)
    requires Increasing(sched) && NonDecreasing(order)
    ensures m == Greedy(sched, order, 0, 0) && unfired == Unmatched(sched, m, |sched|)
    ensures Valid(m, sched, order, 0, 0)
    ensures forall other :: Valid(other, sched, order, 0, 0) ==>
              |unfired| <= |Unmatched(sched, other, |sched|)|
  {
    unfired, m := [], map[];
    var i := 0;
    for k := 0 to |sched|
      invariant 0 <= i <= |order|
      invariant forall a :: a in m ==> 0 <= a < k
      invariant Follows(sched, order, m, k, i)
      invariant unfired == Unmatched(sched, m, k)
    {
      ghost var m0 := m;
      var s := sched[k];
      while i < |order| && order[i] < s - FIRE_TOL
        invariant 0 <= i <= |order| && Follows(sched, order, m, k, i)
      {
        FollowsPast(sched, order, m, k, i);
        i := i + 1;
      }
      if i < |order| && order[i] <= s + FIRE_TOL {
        FollowsTaking(sched, order, m, k, i);
        m := m[k := i];
        i := i + 1;
        UnmatchedLater(sched, m0, m, k);
      } else {
        FollowsWithout(sched, order, m, k, i);
        unfired := unfired + [s];
      }
    }
    assert m + map[] == m;
    ScanIsBest(sched, order);
  }

  lemma {:induction false} UnmatchedLater(sched: seq<int>, m: Matching, m': Matching, n: nat)
    requires n <= |sched| && forall a :: 0 <= a < n ==> (a in m <==> a in m')
    ensures Unmatched(sched, m, n) == Unmatched(sched, m', n)
  {
    if n > 0 {
      UnmatchedLater(sched, m, m', n - 1);
    }
  }

  /** The greedy scan leaves out as few events as any assignment can. */
  lemma ScanIsBest(sched: seq<int>, order: seq<int>)
    requires Increasing(sched) && NonDecreasing(order)
    ensures var m := Greedy(sched, order, 0, 0);
            Valid(m, sched, order, 0, 0)
            && forall other :: Valid(other, sched, order, 0, 0) ==>
                 |Unmatched(sched, m, |sched|)| <= |Unmatched(sched, other, |sched|)|
  {
    var m := Greedy(sched, order, 0, 0);
    GreedyIsValid(sched, order, 0, 0);
    UnmatchedSize(sched, order, m);
    forall other | Valid(other, sched, order, 0, 0)
      ensures |Unmatched(sched, m, |sched|)| <= |Unmatched(sched, other, |sched|)|
    {
      GreedyIsMaximum(other, sched, order, 0, 0);
      UnmatchedSize(sched, order, other);
    }
  }

  /** What is left out: exactly the events without a fire, each once and in order. */
  lemma {:induction false} UnmatchedExactly(sched: seq<int>, m: Matching, n: nat)
    requires n <= |sched| && Increasing(sched)
    ensures Increasing(Unmatched(sched, m, n))
    ensures forall s :: s in Unmatched(sched, m, n) <==> exists k :: 0 <= k < n && k !in m && sched[k] == s
  {
    if n > 0 {
      UnmatchedExactly(sched, m, n - 1);
      var before := Unmatched(sched, m, n - 1);
      forall i | 0 <= i < |before|
        ensures before[i] < sched[n - 1]
      {
        assert before[i] in before;
      }
    }
  }

  // ------------------------------------------------------------ the worst gap

  /** The unfired events strictly between two fires. */
  function Gone(unfired: seq<int>, a: int, b: int): seq<int> {
    if unfired == [] then []
    else
      var k := |unfired| - 1;
      Gone(unfired[..k], a, b) + if a < unfired[k] < b then [unfired[k]] else []
  }

  lemma {:induction false} GoneMeans(unfired: seq<int>, a: int, b: int)
    ensures forall s :: s in Gone(unfired, a, b) <==> s in unfired && a < s < b
  {
    if unfired != [] {
      var k := |unfired| - 1;
      GoneMeans(unfired[..k], a, b);
      assert unfired == unfired[..k] + [unfired[k]];
    }
  }

  /** Each of them counts once. */
  lemma {:induction false} GoneCounts(unfired: seq<int>, a: int, b: int)
    requires Increasing(unfired)
    ensures |Gone(unfired, a, b)| == |set s | s in unfired && a < s < b|
  {
    var now := set s | s in unfired && a < s < b;
    if unfired == [] {
      assert now == {};
    } else {
      var k := |unfired| - 1;
      GoneCounts(unfired[..k], a, b);
      LastOfThem(unfired, a, b);
    }
  }

  lemma LastOfThem(unfired: seq<int>, a: int, b: int)
    requires unfired != [] && Increasing(unfired)
    ensures var k := |unfired| - 1;
            var before := set s | s in unfired[..k] && a < s < b;
            (set s | s in unfired && a < s < b) == before + (if a < unfired[k] < b then {unfired[k]} else {})
            && unfired[k] !in before
  {
    var k := |unfired| - 1;
    assert unfired == unfired[..k] + [unfired[k]];
  }

  /** The unfired events inside the gap after fire `j`. */
  function GoneAfter(unfired: seq<int>, order: seq<int>, j: int): set<int>
    requires 0 <= j < |order| - 1
  {
    set s | s in unfired && order[j] < s < order[j + 1]
  }

  predicate HasGone(unfired: seq<int>, order: seq<int>, j: int) {
    0 <= j < |order| - 1 && exists s :: s in unfired && InGap(order, j, s)
  }

  predicate InGap(order: seq<int>, j: int, s: int)
    requires 0 <= j < |order| - 1
  {
    order[j] < s < order[j + 1]
  }

  function Length(order: seq<int>, j: int): int
    requires 0 <= j < |order| - 1
  {
    order[j + 1] - order[j]
  }

  /** Of the first `n` gaps, `best` is the first longest that contains an unfired event, or
      -1 when none does. */
  predicate IsWorst(unfired: seq<int>, order: seq<int>, n: int, best: int) {
    && -1 <= best < n <= |order| - 1
    && (best >= 0 ==> HasGone(unfired, order, best))
    && (forall i :: 0 <= i < n && HasGone(unfired, order, i) ==>
          best >= 0 && (if i < best then Length(order, i) < Length(order, best)
                        else Length(order, i) <= Length(order, best)))
  }

  /** The pair reported for gap `best`. */
  function Reported(unfired: seq<int>, order: seq<int>, best: int): (int, nat)
    requires -1 <= best < |order| - 1 || best == -1
  {
    if best < 0 then (0, 0) else (Length(order, best), |GoneAfter(unfired, order, best)|)
  }

  /** A gap holds an unfired event exactly when the list of those it holds is not empty, and
      then it has length. */
  lemma GoneExactly(unfired: seq<int>, order: seq<int>, j: int)
    requires 0 <= j < |order| - 1
    requires Increasing(unfired)
    ensures var gone := Gone(unfired, order[j], order[j + 1]);
            (HasGone(unfired, order, j) <==> gone != []) && |gone| == |GoneAfter(unfired, order, j)|
    ensures HasGone(unfired, order, j) ==> Length(order, j) > 0
  {
    var gone := Gone(unfired, order[j], order[j + 1]);
    GoneMeans(unfired, order[j], order[j + 1]);
    GoneCounts(unfired, order[j], order[j + 1]);
    if gone != [] {
      assert gone[0] in gone && InGap(order, j, gone[0]);
    }
  }

  lemma UnfiredIncreases(sched: seq<int>, m: Matching)
    requires Increasing(sched)
    ensures Increasing(Unmatched(sched, m, |sched|))
  {
    UnmatchedExactly(sched, m, |sched|);
  }

  /** What the loop holds after the first `n` gaps. */
  predicate WorstSoFar(unfired: seq<int>, order: seq<int>, n: int, best: int, worst: int, count: nat) {
    && IsWorst(unfired, order, n, best) && (worst, count) == Reported(unfired, order, best)
    && if best >= 0 then worst > 0 && count > 0 else worst == 0 && count == 0
  }

  /** The next gap, after the longest so far. */
  lemma NextGap(unfired: seq<int>, order: seq<int>, j: int, best: int, worst: int, count: nat)
    requires Increasing(unfired) && 0 <= j < |order| - 1 && WorstSoFar(unfired, order, j, best, worst, count)
    ensures var gone, length := Gone(unfired, order[j], order[j + 1]), order[j + 1] - order[j];
            if gone != [] && length > worst then WorstSoFar(unfired, order, j + 1, j, length, |gone|)
            else WorstSoFar(unfired, order, j + 1, best, worst, count)
  {
    GoneExactly(unfired, order, j);
  }

  /** The first longest gap that contains an unfired event, and how many it contains; or
      two zeros when there is no such gap. */
  predicate WorstGap(unfired: seq<int>, order: seq<int>, worst: int, count: nat) {
    if |order| <= 1 then worst == 0 && count == 0
    else exists best :: -1 <= best < |order| - 1
           && IsWorst(unfired, order, |order| - 1, best) && (worst, count) == Reported(unfired, order, best)
  }

  /** `missed_events`, given the parsed schedule and the fires, both sorted. */
  method Missed(sched: seq<int>, order: seq<int>) returns (worst: int, count: nat)
    requires Increasing(sched) && NonDecreasing(order)
    ensures WorstGap(Unmatched(sched, Greedy(sched, order, 0, 0), |sched|), order, worst, count)
    ensures count > 0 <==> worst > 0
  {
    if |order| <= 1 {
      return 0, 0;
    }
    var unfired, m := Scan(sched, order);
    UnfiredIncreases(sched, m);
    worst, count := WorstOf(unfired, order);
  }

  /** Its second half: the gaps, one after another. */
  method WorstOf(unfired: seq<int>, order: seq<int>) returns (worst: int, count: nat)
    requires Increasing(unfired) && |order| > 1
    ensures WorstGap(unfired, order, worst, count) && (count > 0 <==> worst > 0)
  {
    worst, count := 0, 0;
    ghost var best := -1;
    for j := 0 to |order| - 1
      invariant WorstSoFar(unfired, order, j, best, worst, count)
    {
      var a, b := order[j], order[j + 1];
      var gone := Gone(unfired, a, b);
      NextGap(unfired, order, j, best, worst, count);
      if gone != [] && b - a > worst {
        worst, count, best := b - a, |gone|, j;
      }
    }
  }
}
