/** The function-hit probe: an open-addressed table of counts over 1024 slots, a one-shot
    alarm, and each thread's circular record of the sites it entered. The table takes no
    lock and is modelled as called by one thread at a time. */
module HitTable {

  const SLOTS: nat := 1024

  /** Where the probe for a site starts: `(va >> 4) & 1023`. */
  function Home(va: nat): (i: nat)
    ensures i < SLOTS
  {
    va / 16 % SLOTS
  }

  /** The `p`-th slot probed. */
  function Slot(va: nat, p: nat): (i: nat)
    requires p <= SLOTS
    ensures i < SLOTS
  {
    if Home(va) + p < SLOTS then Home(va) + p else Home(va) + p - SLOTS
  }

  /** How far slot `i` is along the probe for a site. */
  function Distance(va: nat, i: nat): (p: nat)
    requires i < SLOTS
    ensures p < SLOTS && Slot(va, p) == i
  {
    if i >= Home(va) then i - Home(va) else i + SLOTS - Home(va)
  }

  /** The probe's next slot is `(i + 1) & 1023`, and it comes round after 1024. */
  lemma SlotSteps(va: nat, p: nat)
    requires p < SLOTS
    ensures (Slot(va, p) + 1) % SLOTS == Slot(va, p + 1)
    ensures Distance(va, Slot(va, p)) == p
  {}

  /** How often a site was entered. */
  function Entries(calls: seq<nat>, va: nat): nat {
    multiset(calls)[va]
  }

  /** The distinct sites entered. */
  function Sites(calls: seq<nat>): set<nat> {
    set va | va in calls
  }

  lemma NoEntries(calls: seq<nat>, va: nat)
    ensures va !in calls <==> Entries(calls, va) == 0
  {
    assert va in calls <==> va in multiset(calls);
  }

  // ------------------------------------------------------------ the table as a value

  /** Every key is a site that was entered, has its count, appears once, and is found by
      its probe: no slot before it on the way is empty. Every site entered has a slot. */
  predicate TableOk(site: seq<nat>, hits: seq<nat>, calls: seq<nat>) {
    && |site| == |hits| == SLOTS
    && (forall i :: 0 <= i < SLOTS && site[i] != 0 ==>
          site[i] in calls && hits[i] == Entries(calls, site[i]) && Findable(site, i))
    && (forall i, j :: 0 <= i < j < SLOTS && site[i] != 0 ==> site[i] != site[j])
    && (forall va :: va in calls ==> va != 0 && exists i :: 0 <= i < SLOTS && site[i] == va)
  }

  predicate Findable(site: seq<nat>, i: nat)
    requires |site| == SLOTS && i < SLOTS
  {
    forall p :: 0 <= p < Distance(site[i], i) ==> site[Slot(site[i], p)] != 0
  }

  /** The first `p` slots of a probe hold other sites. */
  predicate Passed(site: seq<nat>, va: nat, p: nat)
    requires |site| == SLOTS && p <= SLOTS
  {
    forall q :: 0 <= q < p ==> site[Slot(va, q)] != 0 && site[Slot(va, q)] != va
  }

  /** An empty slot, or having been all the way round, means the site was never entered. */
  lemma NotThere(site: seq<nat>, hits: seq<nat>, calls: seq<nat>, va: nat, p: nat)
    requires TableOk(site, hits, calls) && p <= SLOTS && Passed(site, va, p) && va != 0
    requires p == SLOTS || (p < SLOTS && site[Slot(va, p)] == 0)
    ensures va !in calls
  {
    forall i | 0 <= i < SLOTS
      ensures site[i] != va
    {
      var d := Distance(va, i);
      assert d < p ==> site[Slot(va, d)] != va;
      assert site[i] != 0 ==> Findable(site, i);
    }
  }

  /** A probe that has been all the way round has met 1024 other sites. */
  lemma AllTheWayRound(site: seq<nat>, hits: seq<nat>, calls: seq<nat>, va: nat)
    requires TableOk(site, hits, calls) && Passed(site, va, SLOTS) && va != 0
    ensures |Sites(calls + [va])| > SLOTS
  {
    NotThere(site, hits, calls, va, SLOTS);
    forall i | 0 <= i < SLOTS
      ensures site[i] != 0
    {
      assert Slot(va, Distance(va, i)) == i;
    }
    KeysAreDistinct(site);
    assert Sites(site) <= Sites(calls);
    SubsetSize(Sites(site), Sites(calls));
    assert Sites(calls + [va]) == Sites(calls) + {va};
  }

  lemma {:induction false} KeysAreDistinct(site: seq<nat>)
    requires forall i, j :: 0 <= i < j < |site| ==> site[i] != site[j]
    ensures |Sites(site)| == |site|
  {
    if site != [] {
      var k := |site| - 1;
      KeysAreDistinct(site[..k]);
      assert site == site[..k] + [site[k]];
      assert Sites(site) == Sites(site[..k]) + {site[k]};
      assert site[k] !in site[..k];
    }
  }

  lemma {:induction false} SubsetSize(a: set<nat>, b: set<nat>)
    requires a <= b
    ensures |a| <= |b|
  {
    if a != {} {
      var x :| x in a;
      SubsetSize(a - {x}, b - {x});
    }
  }

  /** So while there are at most 1024 sites a probe never comes round. */
  lemma ProbeEnds(site: seq<nat>, hits: seq<nat>, calls: seq<nat>, va: nat, p: nat)
    requires TableOk(site, hits, calls) && va != 0 && p < SLOTS && Passed(site, va, p)
    requires site[Slot(va, p)] != va && site[Slot(va, p)] != 0 && |Sites(calls + [va])| <= SLOTS
    ensures p + 1 < SLOTS && Passed(site, va, p + 1)
  {
    if p + 1 == SLOTS {
      AllTheWayRound(site, hits, calls, va);
    }
  }

  lemma {:induction false} SitesSize(s: seq<nat>)
    ensures |Sites(s)| <= |s|
  {
    if s != [] {
      var k := |s| - 1;
      SitesSize(s[..k]);
      assert s == s[..k] + [s[k]];
      assert Sites(s) == Sites(s[..k]) + {s[k]};
    }
  }

  /** The unbounded probe ends if and only if there are at most 1024 distinct sites, this
      one included: with one more it goes round for ever. */
  lemma ProbeEndsExactly(site: seq<nat>, hits: seq<nat>, calls: seq<nat>, va: nat)
    requires TableOk(site, hits, calls) && va != 0
    ensures !Passed(site, va, SLOTS) <==> |Sites(calls + [va])| <= SLOTS
  {
    if Passed(site, va, SLOTS) {
      AllTheWayRound(site, hits, calls, va);
    } else {
      assert Sites(calls + [va]) == Sites(calls) + {va};
      assert Sites(calls) <= Sites(site);
      SitesSize(site);
      SubsetSize(Sites(calls), Sites(site));
      var p :| 0 <= p < SLOTS && (site[Slot(va, p)] == 0 || site[Slot(va, p)] == va);
      if site[Slot(va, p)] == 0 {
        assert Sites(calls) <= Sites(site) - {0};
        SubsetSize(Sites(calls), Sites(site) - {0});
      }
    }
  }

  /** One more entry of a site that has a slot. */
  lemma HitAgain(site: seq<nat>, hits: seq<nat>, calls: seq<nat>, va: nat, i: nat)
    requires TableOk(site, hits, calls) && i < SLOTS && site[i] == va != 0
    ensures TableOk(site, hits[i := hits[i] + 1], calls + [va])
    ensures Sites(calls + [va]) == Sites(calls)
  {
    EntriesGrow(calls, va);
  }

  lemma EntriesGrow(calls: seq<nat>, va: nat)
    ensures forall x :: Entries(calls + [va], x) == Entries(calls, x) + if x == va then 1 else 0
  {}

  /** The first entry of a site, into the first empty slot of its probe. */
  lemma HitFirst(site: seq<nat>, hits: seq<nat>, calls: seq<nat>, va: nat, p: nat)
    requires TableOk(site, hits, calls) && va != 0
    requires p < SLOTS && Passed(site, va, p) && site[Slot(va, p)] == 0
    ensures var i := Slot(va, p); TableOk(site[i := va], hits[i := 1], calls + [va])
    ensures va !in calls && |Sites(calls + [va])| == |Sites(calls)| + 1
  {
    NotThere(site, hits, calls, va, p);
    EntriesGrow(calls, va);
    var i := Slot(va, p);
    var site' := site[i := va];
    SlotSteps(va, p);
    forall j | 0 <= j < SLOTS && site'[j] != 0
      ensures Findable(site', j)
    {
      if j != i {
        assert Findable(site, j);
      }
    }
    forall x | x in calls + [va]
      ensures exists j :: 0 <= j < SLOTS && site'[j] == x
    {
      if x == va {
        assert site'[i] == va;
      } else {
        var j :| 0 <= j < SLOTS && site[j] == x;
        assert site'[j] == x;
      }
    }
    assert Sites(calls + [va]) == Sites(calls) + {va};
  }

  // ------------------------------------------------------------ the alarm

  /** The entry at which an alarm for the `count`-th entry of `va` goes off, when it was
      armed after the first `armedAt` of these calls. */
  predicate Rings(calls: seq<nat>, armedAt: nat, va: nat, count: nat) {
    armedAt <= |calls| && Entries(calls[..armedAt], va) < count <= Entries(calls, va)
  }

  /** Is `k` the index of the `count`-th entry of `va`? */
  predicate IsEntry(calls: seq<nat>, k: nat, va: nat, count: nat) {
    k < |calls| && calls[k] == va && Entries(calls[..k + 1], va) == count
  }

  /** The alarm has gone off once, at that entry, if it has been reached, and never
      otherwise; and it is armed until it does. */
  predicate AlarmOk(calls: seq<nat>, armedAt: nat, va: nat, count: nat, armed: bool, rang: seq<nat>) {
    && armedAt <= |calls|
    && armed == !Rings(calls, armedAt, va, count)
    && (if armed then rang == []
        else |rang| == 1 && rang[0] >= armedAt && IsEntry(calls, rang[0], va, count))
  }

  lemma AlarmNext(calls: seq<nat>, armedAt: nat, va: nat, count: nat, armed: bool, rang: seq<nat>, x: nat)
    requires AlarmOk(calls, armedAt, va, count, armed, rang)
    ensures var rings := armed && x == va && Entries(calls + [x], x) == count;
            AlarmOk(calls + [x], armedAt, va, count, armed && !rings,
                    if rings then rang + [|calls|] else rang)
  {
    EntriesGrow(calls, x);
    assert calls == calls[..armedAt] + calls[armedAt..];
    assert Entries(calls[..armedAt], va) <= Entries(calls, va);
    var longer := calls + [x];
    assert longer[..armedAt] == calls[..armedAt];
    assert longer[..|calls| + 1] == longer;
    if !armed {
      assert longer[..rang[0] + 1] == calls[..rang[0] + 1];
    }
  }

  // ------------------------------------------------------------ the probe's state

  class Probe {
    const site: array<nat>
    const hits: array<nat>
    var count: nat
    var alarmVa: nat
    var alarmCount: nat
    var armed: bool

    /** Every entry recorded so far, and the indices of those the current alarm, set after
        the first `armedAt` of them, went off at. */
    ghost var calls: seq<nat>
    ghost var armedAt: nat
    ghost var rang: seq<nat>
    ghost var everArmed: bool

    ghost predicate Valid()
      reads this, site, hits
    {
      && site.Length == hits.Length == SLOTS && site != hits
      && TableOk(site[..], hits[..], calls)
      && count == |Sites(calls)| <= SLOTS
      && AlarmHolds(calls)
    }

    /** The alarm has done what it should about these calls. */
    ghost predicate AlarmHolds(calls: seq<nat>)
      reads this`everArmed, this`armedAt, this`alarmVa, this`alarmCount, this`armed, this`rang
    {
      if everArmed then AlarmOk(calls, armedAt, alarmVa, alarmCount, armed, rang) else !armed
    }

    constructor ()
      ensures Valid() && calls == [] && fresh(site) && fresh(hits) && !everArmed
    {
      site := new nat[SLOTS](i => 0);
      hits := new nat[SLOTS](i => 0);
      count, alarmVa, alarmCount, armed := 0, 0, 0, false;
      calls, armedAt, rang, everArmed := [], 0, [], false;
      new;
      assert forall i :: 0 <= i < SLOTS ==> site[..][i] == 0;
      assert Sites(calls) == {};
    }

    /** jsrf_func_hit_alarm. Setting it for an entry that has already gone by leaves it
        silent for good. */
    method Arm(va: nat, n: nat)
      requires Valid()
      modifies this`alarmVa, this`alarmCount, this`armed, this`armedAt, this`rang, this`everArmed
      ensures Valid() && everArmed && armed && armedAt == |calls| && rang == []
      ensures alarmVa == va && alarmCount == n
    {
      alarmVa, alarmCount, armed := va, n, true;
      armedAt, rang, everArmed := |calls|, [], true;
      assert calls[..armedAt] == calls;
    }

    /** func_hit_alarm: `ring` is the call of the callback. */
    method CheckAlarm(va: nat, n: nat) returns (ring: bool)
      modifies this`armed
      ensures ring == (old(armed) && va == alarmVa && n == alarmCount)
      ensures armed == (old(armed) && !ring)
    {
      if !armed || va != alarmVa || n != alarmCount {
        return false;
      }
      armed := false;
      ring := true;
    }

    /** The probe of jsrf_func_hit: with at most 1024 distinct sites it ends, at the site's
        slot or at the first empty one. */
    method Find(va: nat) returns (i: nat, ghost p: nat)
      requires Valid() && va != 0 && |Sites(calls + [va])| <= SLOTS
      ensures p < SLOTS && i == Slot(va, p) && (site[i] == va || site[i] == 0)
      ensures Passed(site[..], va, p)
    {
      i := va / 16 % SLOTS;
      p := 0;
      assert i == Slot(va, 0);
      while site[i] != va && site[i] != 0
        invariant p < SLOTS && i == Slot(va, p) && Passed(site[..], va, p)
        decreases SLOTS - p
      {
        ProbeEnds(site[..], hits[..], calls, va, p);
        SlotSteps(va, p);
        i := (i + 1) % SLOTS;
        p := p + 1;
      }
    }

    /** Count one entry, in the site's slot or a new one. */
    method Put(va: nat) returns (n: nat)
      requires Valid() && va != 0 && |Sites(calls + [va])| <= SLOTS
      modifies this`count, site, hits
      ensures TableOk(site[..], hits[..], calls + [va]) && count == |Sites(calls + [va])|
      ensures n == Entries(calls + [va], va)
    {
      var i, p := Find(va);
      ghost var site0, hits0 := site[..], hits[..];
      EntriesGrow(calls, va);
      if site[i] == va {
        HitAgain(site0, hits0, calls, va, i);
        n := hits[i] + 1;
        hits[i] := n;
        assert hits[..] == hits0[i := n] && site[..] == site0;
      } else {
        HitFirst(site0, hits0, calls, va, p);
        NoEntries(calls, va);
        n := 1;
        site[i] := va;
        hits[i] := n;
        assert site[..] == site0[i := va] && hits[..] == hits0[i := 1];
        count := count + 1;
      }
    }

    /** jsrf_func_hit. Site 0 is nobody's. */
    method Hit(va: nat) returns (ring: bool)
      requires Valid() && |Sites(calls + [va])| <= SLOTS
      modifies this`count, this`armed, this`calls, this`rang, site, hits
      ensures Valid() && calls == if va == 0 then old(calls) else old(calls) + [va]
      ensures ring == (va != 0 && old(armed) && va == alarmVa && Entries(calls, va) == alarmCount)
      ensures rang == if ring then old(rang) + [|old(calls)|] else old(rang)
      ensures va == 0 ==> site[..] == old(site[..]) && hits[..] == old(hits[..]) && armed == old(armed)
    {
      ring := false;
      if va != 0 {
        ring := Enter(va);
      }
    }

    /** An entry of a real site: counted, and the alarm looked at. */
    method Enter(va: nat) returns (ring: bool)
      requires Valid() && va != 0 && |Sites(calls + [va])| <= SLOTS
      modifies this`count, this`armed, this`calls, this`rang, site, hits
      ensures Valid() && calls == old(calls) + [va]
      ensures ring == (old(armed) && va == alarmVa && Entries(calls, va) == alarmCount)
      ensures rang == if ring then old(rang) + [|old(calls)|] else old(rang)
    {
      var n := Put(va);
      ring := RingIfDue(va, n);
      calls := calls + [va];
    }

    /** func_hit_alarm at the `n`-th entry of the site, and the record of its ringing. */
    method RingIfDue(va: nat, n: nat) returns (ring: bool)
      requires AlarmHolds(calls) && n == Entries(calls + [va], va)
      modifies this`armed, this`rang
      ensures AlarmHolds(calls + [va])
      ensures ring == (old(armed) && va == alarmVa && n == alarmCount)
      ensures rang == if ring then old(rang) + [|calls|] else old(rang)
    {
      if everArmed {
        AlarmNext(calls, armedAt, alarmVa, alarmCount, armed, rang, va);
      }
      ring := CheckAlarm(va, n);
      if ring {
        rang := rang + [|calls|];
      }
    }

    /** jsrf_func_hit_count: the number of past entries, 0 for a site never entered. */
    method HitCount(va: nat) returns (n: nat)
      requires Valid()
      ensures n == Entries(calls, va)
    {
      NoEntries(calls, va);
      if va == 0 {
        return 0;
      }
      var i := va / 16 % SLOTS;
      for p := 0 to SLOTS
        invariant i == Slot(va, p)
        invariant Passed(site[..], va, p)
      {
        if site[i] == va {
          return hits[i];
        }
        if site[i] == 0 {
          NotThere(site[..], hits[..], calls, va, p);
          return 0;
        }
        SlotSteps(va, p);
        i := (i + 1) % SLOTS;
      }
      NotThere(site[..], hits[..], calls, va, SLOTS);
      return 0;
    }

    /** What jsrf_func_hit_report prints of the table: every site entered, once, with how
        often. */
    method Report() returns (lines: seq<(nat, nat)>)
      requires Valid()
      ensures forall k :: 0 <= k < |lines| ==> lines[k].0 in calls && lines[k].1 == Entries(calls, lines[k].0)
      ensures forall k, l :: 0 <= k < l < |lines| ==> lines[k].0 != lines[l].0
      ensures forall va :: va in calls ==> exists k :: 0 <= k < |lines| && lines[k].0 == va
    {
      lines := [];
      ghost var at: seq<nat> := [];
      for i := 0 to SLOTS
        invariant |at| == |lines| && forall k :: 0 <= k < |at| ==> at[k] < i && site[at[k]] != 0
        invariant forall k :: 0 <= k < |at| ==> lines[k] == (site[at[k]], hits[at[k]])
        invariant forall k, l :: 0 <= k < l < |at| ==> at[k] < at[l]
        invariant forall j :: 0 <= j < i && site[j] != 0 ==> j in at
      {
        if site[i] != 0 {
          lines := lines + [(site[i], hits[i])];
          at := at + [i];
        }
      }
      ReportIsComplete(at, lines);
    }

    lemma ReportIsComplete(at: seq<nat>, lines: seq<(nat, nat)>)
      requires Valid() && |at| == |lines| && forall k :: 0 <= k < |at| ==> at[k] < SLOTS && site[at[k]] != 0
      requires forall k :: 0 <= k < |at| ==> lines[k] == (site[at[k]], hits[at[k]])
      requires forall k, l :: 0 <= k < l < |at| ==> at[k] < at[l]
      requires forall j :: 0 <= j < SLOTS && site[j] != 0 ==> j in at
      ensures forall k :: 0 <= k < |lines| ==> lines[k].0 in calls && lines[k].1 == Entries(calls, lines[k].0)
      ensures forall k, l :: 0 <= k < l < |lines| ==> lines[k].0 != lines[l].0
      ensures forall va :: va in calls ==> exists k :: 0 <= k < |lines| && lines[k].0 == va
    {
      assert forall i :: 0 <= i < SLOTS ==> site[..][i] == site[i] && hits[..][i] == hits[i];
      forall va | va in calls
        ensures exists k :: 0 <= k < |lines| && lines[k].0 == va
      {
        var i :| 0 <= i < SLOTS && site[..][i] == va;
        assert va != 0;
        var k :| 0 <= k < |at| && at[k] == i;
        assert lines[k].0 == va;
      }
    }
  }

  // ------------------------------------------------------------ one thread's ring

  /** One thread's record of the sites it entered, in order, the last 1024 of them. */
  class Ring {
    const slots: array<nat>
    var n: nat
    var first: nat
    ghost var log: seq<nat>

    /** The ring holds the tail of the log, each entry at its index modulo the size. */
    ghost predicate Valid()
      reads this, slots
    {
      && slots.Length == SLOTS && n == |log|
      && (forall k :: 0 <= k < |log| && |log| - SLOTS <= k ==> slots[k % SLOTS] == log[k])
      && (forall k :: 0 <= k < |log| ==> log[k] != 0)
      && first == if log == [] then 0 else log[0]
    }

    constructor ()
      ensures Valid() && log == [] && fresh(slots)
    {
      slots := new nat[SLOTS](i => 0);
      n, first, log := 0, 0, [];
    }

    method Record(va: nat)
      requires Valid() && va != 0
      modifies this, slots
      ensures Valid() && log == old(log) + [va]
    {
      if first == 0 {
        first := va;
      }
      slots[n % SLOTS] := va;
      n := n + 1;
      log := log + [va];
    }

    /** What jsrf_func_hit_report prints of it: the first site, and the last 1024 entries in
        the order of the calls, or all of them while there are no more. */
    method Report() returns (start: nat, shown: seq<nat>)
      requires Valid()
      ensures start == if log == [] then 0 else log[0]
      ensures shown == if |log| <= SLOTS then log else log[|log| - SLOTS..]
    {
      start, shown := first, [];
      var count := if n < SLOTS then n else SLOTS;
      for k := 0 to count
        invariant shown == log[|log| - count..][..k]
      {
        var i := (n - count + k) % SLOTS;
        assert slots[i] == log[n - count + k] == log[|log| - count..][k];
        shown := shown + [slots[i]];
      }
      assert log[0..] == log;
    }
  }
}
