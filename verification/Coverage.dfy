/** `coverage`: how many bytes the detected functions cover, by sweeping their sorted
    intervals. */
module Coverage {

  /** A detected function: from `start` up to `end`. */
  datatype Interval = Interval(start: int, end: int)

  predicate Inside(x: int, s: int, e: int) {
    s <= x < e
  }

  function Bytes(s: int, e: int): set<int> {
    set x | s <= x < e && Inside(x, s, e)
  }

  /** The distinct addresses that the intervals cover. */
  function Covered(iv: seq<Interval>): set<int> {
    if iv == [] then {} else Covered(iv[..|iv| - 1]) + Bytes(iv[|iv| - 1].start, iv[|iv| - 1].end)
  }

  /** An address is covered when it lies in some interval. */
  lemma {:induction false} CoveredMeans(iv: seq<Interval>, x: int)
    ensures x in Covered(iv) <==> exists i :: 0 <= i < |iv| && iv[i].start <= x < iv[i].end
  {
    if iv != [] {
      var k := |iv| - 1;
      CoveredMeans(iv[..k], x);
      if x in Covered(iv[..k]) {
        var i :| 0 <= i < k && iv[..k][i].start <= x < iv[..k][i].end;
        assert iv[i].start <= x < iv[i].end;
      }
      forall i | 0 <= i < k && iv[i].start <= x < iv[i].end
        ensures x in Covered(iv[..k])
      {
        assert iv[..k][i] == iv[i];
      }
    }
  }

  lemma {:induction false} BytesCount(s: int, e: int)
    requires s <= e
    ensures |Bytes(s, e)| == e - s
    decreases e - s
  {
    if s < e {
      BytesCount(s, e - 1);
      assert Bytes(s, e) == Bytes(s, e - 1) + {e - 1};
    } else {
      assert Bytes(s, e) == {};
    }
  }

  predicate Before(a: Interval, b: Interval) {
    a.start < b.start || (a.start == b.start && a.end <= b.end)
  }

  predicate Sorted(iv: seq<Interval>) {
    forall i, j :: 0 <= i < j < |iv| ==> iv[i].start <= iv[j].start
  }

  /** Does every function end no earlier than it starts? */
  predicate Forward(iv: seq<Interval>) {
    forall i :: 0 <= i < |iv| ==> iv[i].start <= iv[i].end
  }

  /** Sorting pairs, as Python does. */
  function Insert(iv: seq<Interval>, x: Interval): (r: seq<Interval>)
    ensures |r| == |iv| + 1
  {
    if iv == [] then [x]
    else
      var k := |iv| - 1;
      if Before(iv[k], x) then iv + [x] else Insert(iv[..k], x) + [iv[k]]
  }

  function Sort(iv: seq<Interval>): (r: seq<Interval>)
    ensures |r| == |iv|
  {
    if iv == [] then [] else Insert(Sort(iv[..|iv| - 1]), iv[|iv| - 1])
  }

  /** Insertion keeps what is covered ... */
  lemma {:induction false} InsertCovers(iv: seq<Interval>, x: Interval)
    ensures Covered(Insert(iv, x)) == Covered(iv) + Bytes(x.start, x.end)
  {
    var r := Insert(iv, x);
    if iv == [] {
      assert r[..0] == [];
    } else {
      var k := |iv| - 1;
      if Before(iv[k], x) {
        assert r[..|r| - 1] == iv;
      } else {
        InsertCovers(iv[..k], x);
        assert r[..|r| - 1] == Insert(iv[..k], x);
      }
    }
  }

  /** ... and adds nothing else, so it keeps every bound ... */
  lemma {:induction false} InsertMembers(iv: seq<Interval>, x: Interval)
    ensures forall y :: y in Insert(iv, x) ==> y == x || y in iv
  {
    if iv != [] {
      InsertMembers(iv[..|iv| - 1], x);
    }
  }

  /** ... and the order. */
  lemma {:induction false} InsertSorts(iv: seq<Interval>, x: Interval)
    requires Sorted(iv)
    ensures Sorted(Insert(iv, x))
  {
    if iv != [] && !Before(iv[|iv| - 1], x) {
      var k := |iv| - 1;
      InsertSorts(iv[..k], x);
      InsertMembers(iv[..k], x);
      var front := Insert(iv[..k], x);
      forall i | 0 <= i < |front|
        ensures front[i].start <= iv[k].start
      {
        assert front[i] in front;
      }
    }
  }

  lemma {:induction false} SortKeeps(iv: seq<Interval>)
    ensures Covered(Sort(iv)) == Covered(iv) && Sorted(Sort(iv))
  {
    if iv != [] {
      var k := |iv| - 1;
      SortKeeps(iv[..k]);
      InsertCovers(Sort(iv[..k]), iv[k]);
      InsertSorts(Sort(iv[..k]), iv[k]);
    }
  }

  lemma {:induction false} SortKeepsForward(iv: seq<Interval>)
    requires Forward(iv)
    ensures Forward(Sort(iv))
  {
    if iv != [] {
      var k := |iv| - 1;
      SortKeepsForward(iv[..k]);
      InsertKeepsForward(Sort(iv[..k]), iv[k]);
    }
  }

  lemma InsertKeepsForward(iv: seq<Interval>, x: Interval)
    requires Forward(iv) && x.start <= x.end
    ensures Forward(Insert(iv, x))
  {
    InsertMembers(iv, x);
    forall i | 0 <= i < |Insert(iv, x)|
      ensures Insert(iv, x)[i].start <= Insert(iv, x)[i].end
    {
      assert Insert(iv, x)[i] in Insert(iv, x);
    }
  }

  /** In the middle of the sweep: the closed stretches and the current one make up what is
      covered so far, and the current one is its end. */
  ghost predicate Swept(c: set<int>, total: int, curS: int, curE: int) {
    && curS <= curE && total + (curE - curS) == |c|
    && (forall x :: x in c ==> x < curE)
    && (forall x :: Inside(x, curS, curE) ==> x in c)
  }

  /** An interval that starts no earlier than the current one extends it, or begins a new
      one after a gap. */
  lemma SweepNext(c: set<int>, total: int, curS: int, curE: int, s: int, e: int)
    requires Swept(c, total, curS, curE) && curS <= s <= e
    ensures s > curE ==> Swept(c + Bytes(s, e), total + (curE - curS), s, e)
    ensures s <= curE ==> Swept(c + Bytes(s, e), total, curS, if curE > e then curE else e)
  {
    var from := if s > curE then s else curE;
    if from <= e {
      var more := Bytes(from, e);
      BytesCount(from, e);
      assert c + Bytes(s, e) == c + more;
      assert c !! more;
    } else {
      assert c + Bytes(s, e) == c;
    }
  }

  /** `coverage_bytes`: for intervals that overlap, nest or repeat, the number of distinct
      addresses in their union. */
  method CoverageBytes(functions: seq<Interval>) returns (total: int)
    requires functions != [] && Forward(functions)
    ensures total == |Covered(functions)|
  {
    var iv := Sort(functions);
    SortKeeps(functions);
    SortKeepsForward(functions);
    total := 0;
    var curS, curE := iv[0].start, iv[0].end;
    FirstSwept(iv);
    for i := 1 to |iv|
      invariant Swept(Covered(iv[..i]), total, curS, curE)
      invariant curS <= iv[i - 1].start
    {
      var s, e := iv[i].start, iv[i].end;
      CoveredNext(iv, i);
      SweepNext(Covered(iv[..i]), total, curS, curE, s, e);
      if s > curE {
        total := total + (curE - curS);
        curS, curE := s, e;
      } else {
        curE := if curE > e then curE else e;
      }
    }
    assert iv[..|iv|] == iv;
    total := total + (curE - curS);
  }

  lemma CoveredNext(iv: seq<Interval>, i: nat)
    requires i < |iv|
    ensures Covered(iv[..i + 1]) == Covered(iv[..i]) + Bytes(iv[i].start, iv[i].end)
  {
    assert iv[..i + 1][..i] == iv[..i];
  }

  lemma FirstSwept(iv: seq<Interval>)
    requires iv != [] && Forward(iv)
    ensures Swept(Covered(iv[..1]), 0, iv[0].start, iv[0].end)
  {
    assert iv[..1][..0] == [];
    assert Covered(iv[..1]) == Bytes(iv[0].start, iv[0].end);
    BytesCount(iv[0].start, iv[0].end);
  }
}
