/** The dispatch table editor, `register_dispatch`, and the two lookups that trust what it
    leaves: a binary search over the counted rows, and a flat table over a span. */
module Dispatch {

  datatype Option<T> = None | Some(value: T)

  /** One row of g_recomp_table, and one recovered entry to add. */
  datatype Row = Row(va: nat, name: string)

  /** A line of the table as it stands in the file. */
  datatype Line = Known(row: Row) | Unrecognised(text: string)

  /** The parts of the dispatch unit that the editor reads and writes. A part is absent when
      its pattern is not found. */
  datatype Unit = Unit(table: Option<seq<Line>>, size: Option<nat>, base: Option<nat>, span: Option<nat>)

  /** What stops the editor: each is an AssertionError. */
  datatype Refusal = NoTable | BadRow(text: string) | NoSize

  datatype Outcome = Done(after: Unit, added: seq<Row>) | Failed(why: Refusal)

  function Lines(rows: seq<Row>): (ls: seq<Line>)
    ensures |ls| == |rows| && forall i :: 0 <= i < |rows| ==> ls[i] == Known(rows[i])
  {
    if rows == [] then [] else Lines(rows[..|rows| - 1]) + [Known(rows[|rows| - 1])]
  }

  /** The rows of the table, if every line of it is one. */
  function RowsOf(ls: seq<Line>): (rows: seq<Row>)
    requires forall i :: 0 <= i < |ls| ==> ls[i].Known?
    ensures |rows| == |ls| && forall i :: 0 <= i < |ls| ==> rows[i] == ls[i].row
  {
    if ls == [] then [] else RowsOf(ls[..|ls| - 1]) + [ls[|ls| - 1].row]
  }

  /** `registered_addresses`. */
  function Addresses(rows: seq<Row>): set<nat> {
    set i | 0 <= i < |rows| :: rows[i].va
  }

  // ------------------------------------------------------------ sorting

  /** Strings as Python orders them. */
  predicate NameBefore(a: string, b: string) {
    if b == [] then false
    else if a == [] then true
    else if a[0] != b[0] then a[0] < b[0]
    else NameBefore(a[1..], b[1..])
  }

  /** Pairs as Python orders them. */
  predicate RowBefore(a: Row, b: Row) {
    a.va < b.va || (a.va == b.va && NameBefore(a.name, b.name))
  }

  /** Insertion that keeps equal elements in order. `byVa` compares addresses only. */
  function Insert(rows: seq<Row>, x: Row, byVa: bool): (r: seq<Row>)
    ensures multiset(r) == multiset(rows) + multiset{x}
  {
    if rows == [] then [x]
    else
      var k := |rows| - 1;
      assert rows == rows[..k] + [rows[k]];
      var after := if byVa then x.va < rows[k].va else RowBefore(x, rows[k]);
      if after then Insert(rows[..k], x, byVa) + [rows[k]] else rows + [x]
  }

  function Sort(rows: seq<Row>, byVa: bool): (r: seq<Row>)
    ensures multiset(r) == multiset(rows)
  {
    if rows == [] then []
    else
      var k := |rows| - 1;
      assert rows == rows[..k] + [rows[k]];
      Insert(Sort(rows[..k], byVa), rows[k], byVa)
  }

  predicate Ascending(rows: seq<Row>) {
    forall i, j :: 0 <= i < j < |rows| ==> rows[i].va <= rows[j].va
  }

  predicate StrictlyAscending(rows: seq<Row>) {
    forall i, j :: 0 <= i < j < |rows| ==> rows[i].va < rows[j].va
  }

  predicate DistinctVas(rows: seq<Row>) {
    forall i, j :: 0 <= i < j < |rows| ==> rows[i].va != rows[j].va
  }

  lemma AppendAscends(rows: seq<Row>, x: Row)
    requires Ascending(rows) && forall r :: r in rows ==> r.va <= x.va
    ensures Ascending(rows + [x])
  {}

  lemma SameRows(a: seq<Row>, b: seq<Row>)
    requires multiset(a) == multiset(b)
    ensures forall r :: r in a <==> r in b
  {
    assert forall r :: r in a <==> r in multiset(a);
    assert forall r :: r in b <==> r in multiset(b);
  }

  lemma LastIsGreatest(rows: seq<Row>)
    requires Ascending(rows) && rows != []
    ensures forall r :: r in rows ==> r.va <= rows[|rows| - 1].va
  {}

  lemma {:induction false} InsertAscends(rows: seq<Row>, x: Row, byVa: bool)
    requires Ascending(rows)
    ensures Ascending(Insert(rows, x, byVa))
  {
    if rows != [] {
      var k := |rows| - 1;
      LastIsGreatest(rows);
      if Insert(rows, x, byVa) == rows + [x] && x.va >= rows[k].va {
        AppendAscends(rows, x);
      } else {
        InsertAscends(rows[..k], x, byVa);
        var front := Insert(rows[..k], x, byVa);
        assert multiset(front) == multiset(rows[..k] + [x]);
        SameRows(front, rows[..k] + [x]);
        AppendAscends(front, rows[k]);
      }
    }
  }

  lemma {:induction false} SortAscends(rows: seq<Row>, byVa: bool)
    ensures Ascending(Sort(rows, byVa))
  {
    if rows != [] {
      var k := |rows| - 1;
      SortAscends(rows[..k], byVa);
      InsertAscends(Sort(rows[..k], byVa), rows[k], byVa);
    }
  }

  // ------------------------------------------------------------ the editor as a function

  /** The entries that get a row: the first of each address that has none yet. */
  function NewRows(entries: seq<Row>, present: set<nat>): (added: seq<Row>)
    ensures forall r :: r in added ==> r in entries
  {
    if entries == [] then []
    else
      var k := |entries| - 1;
      var before := NewRows(entries[..k], present);
      if entries[k].va in present + Addresses(before) then before else before + [entries[k]]
  }

  function Least(rows: seq<Row>): (lo: nat)
    requires rows != []
    ensures lo in Addresses(rows) && forall va :: va in Addresses(rows) ==> lo <= va
  {
    var k := |rows| - 1;
    if k == 0 then rows[0].va
    else
      AddressesSplit(rows);
      if rows[k].va < Least(rows[..k]) then rows[k].va else Least(rows[..k])
  }

  function Greatest(rows: seq<Row>): (hi: nat)
    requires rows != []
    ensures hi in Addresses(rows) && forall va :: va in Addresses(rows) ==> va <= hi
  {
    var k := |rows| - 1;
    if k == 0 then rows[0].va
    else
      AddressesSplit(rows);
      if rows[k].va > Greatest(rows[..k]) then rows[k].va else Greatest(rows[..k])
  }

  lemma AddressesSplit(rows: seq<Row>)
    requires rows != []
    ensures Addresses(rows) == Addresses(rows[..|rows| - 1]) + {rows[|rows| - 1].va}
  {}

  function Min(a: nat, b: nat): nat { if a < b then a else b }

  function Max(a: nat, b: nat): nat { if a < b then b else a }

  /** The widened span, or none when the unit does not declare one. */
  function Widened(u: Unit, rows: seq<Row>): (Option<nat>, Option<nat>)
    requires rows != []
  {
    if u.base.None? || u.span.None? then (u.base, u.span)
    else
      var lo := Min(u.base.value, Least(rows));
      var hi := Max(u.base.value + u.span.value, Greatest(rows) + 1);
      (Some(lo), Some(hi - lo))
  }

  /** The unit once `all` are its rows. */
  function Rewritten(u: Unit, all: seq<Row>): Unit
    requires all != []
  {
    Unit(Some(Lines(all)), Some(|all|), Widened(u, all).0, Widened(u, all).1)
  }

  predicate AllKnown(ls: seq<Line>) {
    forall i :: 0 <= i < |ls| ==> ls[i].Known?
  }

  function FirstBad(ls: seq<Line>): string
    requires !AllKnown(ls)
  {
    if ls[0].Unrecognised? then ls[0].text else FirstBad(ls[1..])
  }

  /** `register_dispatch`. */
  function Register(u: Unit, entries: seq<Row>): Outcome {
    if u.table.None? then Failed(NoTable)
    else if !AllKnown(u.table.value) then Failed(BadRow(FirstBad(u.table.value)))
    else
      var rows := RowsOf(u.table.value);
      var added := NewRows(Sort(entries, false), Addresses(rows));
      if added == [] then Done(u, [])
      else if u.size.None? then Failed(NoSize)
      else
        Done(Merged(u, rows, added), added)
  }

  /** The unit once `added` are sorted in among its rows. */
  function Merged(u: Unit, rows: seq<Row>, added: seq<Row>): Unit
    requires added != []
  {
    SortKeepsSize(rows + added, true);
    Rewritten(u, Sort(rows + added, true))
  }

  lemma SortKeepsSize(rows: seq<Row>, byVa: bool)
    ensures |Sort(rows, byVa)| == |rows|
  {
    assert |multiset(Sort(rows, byVa))| == |multiset(rows)|;
  }

  // ------------------------------------------------------------ the four invariants

  predicate Spanned(rows: seq<Row>, base: nat, span: nat) {
    forall i :: 0 <= i < |rows| ==> base <= rows[i].va < base + span
  }

  /** SORTED, COUNTED, SPANNED; strictly sorted is also UNIQUE. */
  predicate InOrder(u: Unit) {
    && u.table.Some? && AllKnown(u.table.value)
    && var rows := RowsOf(u.table.value);
       && StrictlyAscending(rows)
       && u.size == Some(|rows|)
       && (u.base.Some? && u.span.Some? ==> Spanned(rows, u.base.value, u.span.value))
  }

  lemma {:induction false} NewRowsAreNew(entries: seq<Row>, present: set<nat>)
    ensures var added := NewRows(entries, present);
            && DistinctVas(added)
            && (forall r :: r in added ==> r.va !in present)
            && (forall r :: r in entries ==> r.va in present + Addresses(added))
  {
    if entries != [] {
      var k := |entries| - 1;
      NewRowsAreNew(entries[..k], present);
      var before, added := NewRows(entries[..k], present), NewRows(entries, present);
      if entries[k].va !in present + Addresses(before) {
        AddressesSplit(added);
        assert added[..|added| - 1] == before;
      }
      assert entries == entries[..k] + [entries[k]];
    }
  }

  lemma AddressesMean(rows: seq<Row>)
    ensures forall r :: r in rows ==> r.va in Addresses(rows)
    ensures forall va :: va in Addresses(rows) ==> exists r :: r in rows && r.va == va
  {}

  lemma At(s: seq<Row>, r: Row) returns (i: nat)
    requires r in multiset(s)
    ensures i < |s| && s[i] == r
  {
    i :| i < |s| && s[i] == r;
  }

  lemma DistinctByCount(a: seq<Row>, b: seq<Row>)
    requires multiset(a) == multiset(b) && DistinctVas(a)
    ensures DistinctVas(b)
  {
    forall i, j | 0 <= i < j < |b|
      ensures b[i].va != b[j].va
    {
      assert b[i] in multiset(b) && b[j] in multiset(b);
      var x := At(a, b[i]);
      var y := At(a, b[j]);
      if x == y {
        TwiceCounts(b, i, j);
        OnceCounts(a, x);
      }
    }
  }

  lemma TwiceCounts(s: seq<Row>, i: nat, j: nat)
    requires i < j < |s| && s[i] == s[j]
    ensures multiset(s)[s[i]] >= 2
  {
    assert s == s[..j] + s[j..];
    assert s[..j][i] == s[i] && s[j..][0] == s[j];
    assert s[i] in s[..j] && s[j] in s[j..];
    assert multiset(s) == multiset(s[..j]) + multiset(s[j..]);
  }

  lemma {:induction false} OnceCounts(s: seq<Row>, i: nat)
    requires i < |s| && DistinctVas(s)
    ensures multiset(s)[s[i]] == 1
  {
    var k := |s| - 1;
    assert s == s[..k] + [s[k]];
    if i < k {
      OnceCounts(s[..k], i);
    } else {
      assert s[k] !in s[..k];
    }
  }

  lemma RowsOfLines(rows: seq<Row>)
    ensures RowsOf(Lines(rows)) == rows
  {}

  lemma RowsOfRewritten(u: Unit, all: seq<Row>)
    requires all != []
    ensures RowsOf(Rewritten(u, all).table.value) == all
  {
    RowsOfLines(all);
  }

  /** What an edit that adds rows leaves in the file. */
  lemma RegisterWrites(u: Unit, entries: seq<Row>)
    requires Register(u, entries).Done? && Register(u, entries).added != []
    ensures var rows, added := RowsOf(u.table.value), Register(u, entries).added;
            var all := Sort(rows + added, true);
            && added == NewRows(Sort(entries, false), Addresses(rows))
            && all != [] && Register(u, entries).after == Rewritten(u, all)
            && RowsOf(Register(u, entries).after.table.value) == all
  {
    MergedWrites(u, RowsOf(u.table.value), Register(u, entries).added);
  }

  lemma MergedWrites(u: Unit, rows: seq<Row>, added: seq<Row>)
    requires added != []
    ensures var all := Sort(rows + added, true);
            all != [] && Merged(u, rows, added) == Rewritten(u, all)
            && RowsOf(Rewritten(u, all).table.value) == all
  {
    SortKeepsSize(rows + added, true);
    RowsOfRewritten(u, Sort(rows + added, true));
  }

  lemma MergedInOrder(rows: seq<Row>, added: seq<Row>)
    requires DistinctVas(rows) && DistinctVas(added) && forall r :: r in added ==> r.va !in Addresses(rows)
    ensures StrictlyAscending(Sort(rows + added, true))
  {
    var all := Sort(rows + added, true);
    forall i, j | 0 <= i < j < |rows + added|
      ensures (rows + added)[i].va != (rows + added)[j].va
    {
      if i < |rows| <= j {
        assert (rows + added)[j] in added && rows[i].va in Addresses(rows);
      }
    }
    DistinctByCount(rows + added, all);
    SortAscends(rows + added, true);
  }

  lemma WidenedSpans(u: Unit, rows: seq<Row>)
    requires rows != [] && u.base.Some? && u.span.Some?
    ensures var (base, span) := Widened(u, rows);
            && base.Some? && span.Some? && Spanned(rows, base.value, span.value)
            && base.value <= u.base.value && u.base.value + u.span.value <= base.value + span.value
            && (base == u.base || base.value in Addresses(rows))
            && (base.value + span.value == u.base.value + u.span.value
                || base.value + span.value - 1 in Addresses(rows))
  {
    AddressesMean(rows);
    forall i | 0 <= i < |rows|
      ensures Least(rows) <= rows[i].va <= Greatest(rows)
    {
      assert rows[i] in rows;
    }
  }

  lemma WrittenInOrder(u: Unit, all: seq<Row>, after: Unit)
    requires all != [] && StrictlyAscending(all)
    requires after == Rewritten(u, all)
    ensures InOrder(after) && RowsOf(after.table.value) == all
    ensures WidensOnly(u, after, all)
  {
    RowsOfLines(all);
    if u.base.Some? && u.span.Some? {
      WidenedSpans(u, all);
    }
  }

  /** The span still covers everything it covered, and no more than it must: each end is
      where it was, or at a row. With no span declared, none is. */
  predicate WidensOnly(u: Unit, after: Unit, rows: seq<Row>) {
    if u.base.None? || u.span.None? then after.base == u.base && after.span == u.span
    else
      && after.base.Some? && after.span.Some?
      && var base, span, low, end := u.base.value, u.span.value, after.base.value, after.base.value + after.span.value;
         && low <= base && base + span <= end
         && (low == base || low in Addresses(rows))
         && (end == base + span || end - 1 in Addresses(rows))
  }

  /** The invariants: from a table whose addresses are distinct, whenever a row is added the
      result is strictly sorted, the size literal is the number of rows, and the span, which
      only ever widens, covers every address. Nothing is lost and nothing is invented. */
  lemma RegisterKeepsOrder(u: Unit, entries: seq<Row>)
    requires u.table.Some? && AllKnown(u.table.value) && DistinctVas(RowsOf(u.table.value))
    requires Register(u, entries).Done? && Register(u, entries).added != []
    ensures var after, added := Register(u, entries).after, Register(u, entries).added;
            && InOrder(after) && WidensOnly(u, after, RowsOf(after.table.value))
            && multiset(RowsOf(after.table.value)) == multiset(RowsOf(u.table.value)) + multiset(added)
  {
    var rows, after, added := RowsOf(u.table.value), Register(u, entries).after, Register(u, entries).added;
    var all := Sort(rows + added, true);
    assert StrictlyAscending(all) by {
      RegisterWrites(u, entries);
      NewRowsAreNew(Sort(entries, false), Addresses(rows));
      MergedInOrder(rows, added);
    }
    assert all != [] by {
      SortKeepsSize(rows + added, true);
    }
    assert InOrder(after) && RowsOf(after.table.value) == all && WidensOnly(u, after, all) by {
      RegisterWrites(u, entries);
      WrittenInOrder(u, all, after);
    }
  }

  /** Which entries were added: only entries, only addresses that had no row, and afterwards
      every entry has one. */
  lemma RegisterAddsWhatIsMissing(u: Unit, entries: seq<Row>)
    requires Register(u, entries).Done?
    ensures var added := Register(u, entries).added;
            && DistinctVas(added)
            && (forall x :: x in added ==> x in entries && x.va !in Addresses(RowsOf(u.table.value)))
    ensures var after := Register(u, entries).after;
            && after.table.Some? && AllKnown(after.table.value)
            && forall x :: x in entries ==> x.va in Addresses(RowsOf(after.table.value))
  {
    var rows, added := RowsOf(u.table.value), Register(u, entries).added;
    var sorted := Sort(entries, false);
    NewRowsAreNew(sorted, Addresses(rows));
    SameRows(sorted, entries);
    if added == [] {
      assert Addresses(added) == {};
    } else {
      RegisterWrites(u, entries);
      MergedAddresses(rows, added);
    }
  }

  lemma MergedAddresses(rows: seq<Row>, added: seq<Row>)
    ensures Addresses(Sort(rows + added, true)) == Addresses(rows) + Addresses(added)
  {
    SameAddresses(rows + added, Sort(rows + added, true));
    AddressesJoin(rows, added);
  }

  lemma SameAddresses(a: seq<Row>, b: seq<Row>)
    requires multiset(a) == multiset(b)
    ensures Addresses(a) == Addresses(b)
  {
    SameRows(a, b);
    AddressesMean(a);
    AddressesMean(b);
  }

  lemma AddressesJoin(a: seq<Row>, b: seq<Row>)
    ensures Addresses(a + b) == Addresses(a) + Addresses(b)
  {
    forall va | va in Addresses(a) + Addresses(b)
      ensures va in Addresses(a + b)
    {
      if va in Addresses(a) {
        var i :| 0 <= i < |a| && a[i].va == va;
        assert (a + b)[i].va == va;
      } else {
        var i :| 0 <= i < |b| && b[i].va == va;
        assert (a + b)[|a| + i].va == va;
      }
    }
  }

  /** Registering the same entries again changes nothing. */
  lemma RegisterTwice(u: Unit, entries: seq<Row>)
    requires Register(u, entries).Done?
    ensures var r := Register(u, entries); Register(r.after, entries) == Done(r.after, [])
  {
    var r := Register(u, entries);
    var sorted := Sort(entries, false);
    RegisterAddsWhatIsMissing(u, entries);
    SameRows(sorted, entries);
    NothingNew(sorted, Addresses(RowsOf(r.after.table.value)));
  }

  lemma {:induction false} NothingNew(entries: seq<Row>, present: set<nat>)
    requires forall r :: r in entries ==> r.va in present
    ensures NewRows(entries, present) == []
  {
    if entries != [] {
      NothingNew(entries[..|entries| - 1], present);
    }
  }

  // ------------------------------------------------------------ which entries, and in what order

  /** Strings compare by their first difference, or by length when there is none. */
  lemma {:induction false} NameBeforeMeans(a: string, b: string)
    ensures NameBefore(a, b) <==> exists i :: 0 <= i <= |a| && FirstDifference(a, b, i)
    decreases |b|
  {
    if b != [] && a != [] && a[0] == b[0] {
      NameBeforeMeans(a[1..], b[1..]);
      if NameBefore(a, b) {
        var i :| 0 <= i <= |a[1..]| && FirstDifference(a[1..], b[1..], i);
        assert a[..i + 1] == [a[0]] + a[1..][..i] && b[..i + 1] == [b[0]] + b[1..][..i];
        assert FirstDifference(a, b, i + 1);
      }
      forall i | 0 <= i <= |a| && FirstDifference(a, b, i)
        ensures NameBefore(a, b)
      {
        assert i > 0 && a[1..][..i - 1] == a[..i][1..] && b[1..][..i - 1] == b[..i][1..];
        assert FirstDifference(a[1..], b[1..], i - 1);
      }
    } else if NameBefore(a, b) {
      assert FirstDifference(a, b, 0);
    }
  }

  /** Do the strings agree up to `i`, and is `a` then at its end or below `b`? */
  predicate FirstDifference(a: string, b: string, i: int)
    requires 0 <= i <= |a|
  {
    i < |b| && a[..i] == b[..i] && (i == |a| || a[i] < b[i])
  }

  predicate PairsAscend(rows: seq<Row>) {
    forall i, j :: 0 <= i < j < |rows| ==> !RowBefore(rows[j], rows[i])
  }

  lemma {:induction false} NameBeforeOrders(a: string, b: string, c: string)
    ensures !(NameBefore(a, b) && NameBefore(b, a))
    ensures NameBefore(a, b) && !NameBefore(c, b) ==> NameBefore(a, c)
    decreases |b|
  {
    if a != [] && b != [] && c != [] {
      NameBeforeOrders(a[1..], b[1..], c[1..]);
    } else if a != [] && b != [] {
      NameBeforeOrders(a[1..], b[1..], []);
    }
  }

  lemma PairsAppend(front: seq<Row>, x: Row)
    requires PairsAscend(front) && forall r :: r in front ==> !RowBefore(x, r)
    ensures PairsAscend(front + [x])
  {}

  lemma {:induction false} InsertPairs(rows: seq<Row>, x: Row)
    requires PairsAscend(rows)
    ensures PairsAscend(Insert(rows, x, false))
  {
    if rows != [] && RowBefore(x, rows[|rows| - 1]) {
      var k := |rows| - 1;
      var front := Insert(rows[..k], x, false);
      InsertPairs(rows[..k], x);
      assert multiset(front) == multiset(rows[..k] + [x]);
      SameRows(front, rows[..k] + [x]);
      NameBeforeOrders(x.name, rows[k].name, x.name);
      forall r | r in front
        ensures !RowBefore(rows[k], r)
      {
        assert r == x || r in rows[..k];
      }
      PairsAppend(front, rows[k]);
    } else if rows != [] {
      var k := |rows| - 1;
      forall i | 0 <= i <= k
        ensures !RowBefore(x, rows[i])
      {
        NameBeforeOrders(x.name, rows[i].name, rows[k].name);
      }
    }
  }

  lemma {:induction false} SortPairs(rows: seq<Row>)
    ensures PairsAscend(Sort(rows, false))
  {
    if rows != [] {
      var k := |rows| - 1;
      SortPairs(rows[..k]);
      InsertPairs(Sort(rows[..k], false), rows[k]);
    }
  }

  /** No entry with the same address comes before one of these in the order of names. */
  predicate LeastOf(added: seq<Row>, entries: seq<Row>) {
    forall x, e :: x in added && e in entries && e.va == x.va ==> !NameBefore(e.name, x.name)
  }

  lemma LastIsNoLess(sorted: seq<Row>, x: Row)
    requires PairsAscend(sorted) && sorted != [] && x in sorted[..|sorted| - 1]
    ensures var last := sorted[|sorted| - 1];
            x.va <= last.va && (x.va == last.va ==> !NameBefore(last.name, x.name))
  {
    var k := |sorted| - 1;
    var i :| 0 <= i < k && sorted[i] == x;
    assert !RowBefore(sorted[k], sorted[i]);
  }

  /** From entries in order, the rows added are in order ... */
  lemma {:induction false} NewRowsAscend(sorted: seq<Row>, present: set<nat>)
    requires PairsAscend(sorted)
    ensures StrictlyAscending(NewRows(sorted, present))
  {
    if sorted != [] {
      var k := |sorted| - 1;
      var before, added := NewRows(sorted[..k], present), NewRows(sorted, present);
      NewRowsAscend(sorted[..k], present);
      AddressesMean(before);
      if added != before {
        forall i | 0 <= i < |before|
          ensures before[i].va < sorted[k].va
        {
          assert before[i] in before;
          LastIsNoLess(sorted, before[i]);
        }
      }
    }
  }

  /** ... and each is the least entry with its address. */
  lemma {:induction false} NewRowsAreLeast(sorted: seq<Row>, present: set<nat>)
    requires PairsAscend(sorted)
    ensures LeastOf(NewRows(sorted, present), sorted)
  {
    if sorted != [] {
      var k := |sorted| - 1;
      var before, added := NewRows(sorted[..k], present), NewRows(sorted, present);
      NewRowsAreLeast(sorted[..k], present);
      NewRowsAreNew(sorted[..k], present);
      forall x, e | x in added && e in sorted && e.va == x.va
        ensures !NameBefore(e.name, x.name)
      {
        LeastStep(sorted, present, x, e);
      }
    }
  }

  lemma LeastStep(sorted: seq<Row>, present: set<nat>, x: Row, e: Row)
    requires sorted != [] && PairsAscend(sorted) && x in NewRows(sorted, present) && e in sorted && e.va == x.va
    requires var front := sorted[..|sorted| - 1]; LeastOf(NewRows(front, present), front)
    requires var front := sorted[..|sorted| - 1];
             forall r :: r in front ==> r.va in present + Addresses(NewRows(front, present))
    ensures !NameBefore(e.name, x.name)
  {
    var k := |sorted| - 1;
    var before := NewRows(sorted[..k], present);
    FrontOrLast(sorted, e);
    NameBeforeOrders(x.name, x.name, x.name);
    if x in before && e == sorted[k] {
      LastIsNoLess(sorted, x);
    }
  }

  lemma FrontOrLast(rows: seq<Row>, e: Row)
    requires e in rows
    ensures e in rows[..|rows| - 1] || e == rows[|rows| - 1]
  {
    var i :| 0 <= i < |rows| && rows[i] == e;
    if i < |rows| - 1 {
      assert rows[..|rows| - 1][i] == e;
    }
  }

  /** Which of several entries for one missing address is added, and in what order they are
      listed: the first in the order of names, and by address. */
  lemma RegisterAddsTheLeast(u: Unit, entries: seq<Row>)
    requires Register(u, entries).Done?
    ensures var added := Register(u, entries).added;
            StrictlyAscending(added) && LeastOf(added, entries)
  {
    var sorted := Sort(entries, false);
    SortPairs(entries);
    SameRows(sorted, entries);
    NewRowsAscend(sorted, Addresses(RowsOf(u.table.value)));
    NewRowsAreLeast(sorted, Addresses(RowsOf(u.table.value)));
  }

  /** The rows with one address, in their order. */
  function WithVa(rows: seq<Row>, va: nat): seq<Row> {
    if rows == [] then []
    else
      var k := |rows| - 1;
      WithVa(rows[..k], va) + IfAt(rows[k], va)
  }

  lemma WithVaNext(rows: seq<Row>, x: Row, va: nat)
    ensures WithVa(rows + [x], va) == WithVa(rows, va) + IfAt(x, va)
  {
    assert (rows + [x])[..|rows|] == rows;
  }

  lemma {:induction false} WithVaJoin(a: seq<Row>, b: seq<Row>, va: nat)
    ensures WithVa(a + b, va) == WithVa(a, va) + WithVa(b, va)
  {
    if b == [] {
      assert a + b == a;
    } else {
      var k := |b| - 1;
      assert a + b == a + b[..k] + [b[k]];
      WithVaNext(a + b[..k], b[k], va);
      WithVaJoin(a, b[..k], va);
    }
  }

  function IfAt(x: Row, va: nat): seq<Row> {
    if x.va == va then [x] else []
  }

  /** Of two rows with different addresses at most one is among those of one address. */
  lemma EitherOrder(front: seq<Row>, x: Row, y: Row, va: nat)
    requires x.va != y.va
    ensures front + IfAt(x, va) + IfAt(y, va) == front + IfAt(y, va) + IfAt(x, va)
  {}

  lemma {:induction false} InsertIsStable(rows: seq<Row>, x: Row, va: nat)
    ensures WithVa(Insert(rows, x, true), va) == WithVa(rows, va) + IfAt(x, va)
  {
    if rows != [] && x.va < rows[|rows| - 1].va {
      var k := |rows| - 1;
      InsertIsStable(rows[..k], x, va);
      InsertBefore(rows, x);
      WithVaNext(Insert(rows[..k], x, true), rows[k], va);
      EitherOrder(WithVa(rows[..k], va), x, rows[k], va);
    } else {
      InsertLast(rows, x);
      WithVaNext(rows, x, va);
    }
  }

  lemma InsertBefore(rows: seq<Row>, x: Row)
    requires rows != [] && x.va < rows[|rows| - 1].va
    ensures Insert(rows, x, true) == Insert(rows[..|rows| - 1], x, true) + [rows[|rows| - 1]]
  {}

  lemma InsertLast(rows: seq<Row>, x: Row)
    requires rows == [] || x.va >= rows[|rows| - 1].va
    ensures Insert(rows, x, true) == rows + [x]
  {}

  lemma {:induction false} SortIsStable(rows: seq<Row>, va: nat)
    ensures WithVa(Sort(rows, true), va) == WithVa(rows, va)
  {
    if rows != [] {
      var k := |rows| - 1;
      SortIsStable(rows[..k], va);
      InsertIsStable(Sort(rows[..k], true), rows[k], va);
    }
  }

  /** Rows that share an address, in a table that has any, keep their order. */
  lemma RegisterIsStable(u: Unit, entries: seq<Row>, va: nat)
    requires Register(u, entries).Done? && Register(u, entries).added != []
    ensures var r := Register(u, entries);
            r.after.table.Some? && AllKnown(r.after.table.value) &&
            WithVa(RowsOf(r.after.table.value), va) == WithVa(RowsOf(u.table.value), va) + WithVa(r.added, va)
  {
    var rows, added := RowsOf(u.table.value), Register(u, entries).added;
    RegisterWrites(u, entries);
    SortIsStable(rows + added, va);
    WithVaJoin(rows, added, va);
  }

  // ------------------------------------------------------------ when it refuses

  /** Is line `i` the first that is not a row, and does it read `text`? */
  predicate FirstNotRow(ls: seq<Line>, i: nat, text: string) {
    i < |ls| && ls[i] == Unrecognised(text) && forall j :: 0 <= j < i ==> ls[j].Known?
  }

  /** Is there an entry whose address no row of the table has? */
  predicate SomethingToAdd(ls: seq<Line>, entries: seq<Row>) {
    exists k :: 0 <= k < |entries| && NoRowFor(ls, entries[k].va)
  }

  predicate NoRowFor(ls: seq<Line>, va: nat) {
    forall i :: 0 <= i < |ls| && ls[i].Known? ==> ls[i].row.va != va
  }

  lemma {:induction false} FirstBadIsFirst(ls: seq<Line>, i: nat, text: string)
    requires !AllKnown(ls)
    ensures FirstNotRow(ls, i, text) ==> text == FirstBad(ls)
    ensures exists k: nat :: FirstNotRow(ls, k, FirstBad(ls))
  {
    if ls[0].Known? {
      FirstBadIsFirst(ls[1..], if i > 0 then i - 1 else 0, text);
      var k: nat :| FirstNotRow(ls[1..], k, FirstBad(ls[1..]));
      assert FirstNotRow(ls, k + 1, FirstBad(ls));
      if FirstNotRow(ls, i, text) {
        assert FirstNotRow(ls[1..], i - 1, text);
      }
    } else {
      assert FirstNotRow(ls, 0, FirstBad(ls));
    }
  }

  lemma AddsExactly(ls: seq<Line>, entries: seq<Row>)
    requires AllKnown(ls)
    ensures NewRows(Sort(entries, false), Addresses(RowsOf(ls))) != [] <==> SomethingToAdd(ls, entries)
  {
    var rows, sorted := RowsOf(ls), Sort(entries, false);
    var added := NewRows(sorted, Addresses(rows));
    NewRowsAreNew(sorted, Addresses(rows));
    SameRows(sorted, entries);
    AddressesMean(rows);
    if added != [] {
      assert added[0] in sorted;
      var k :| 0 <= k < |entries| && entries[k] == added[0];
      assert NoRowFor(ls, entries[k].va);
    }
    if SomethingToAdd(ls, entries) {
      var k :| 0 <= k < |entries| && NoRowFor(ls, entries[k].va);
      assert entries[k] in sorted && entries[k].va !in Addresses(rows);
    }
  }

  /** When the editor refuses, and why: with no table; with a line that is not a row, and it
      names the first; or with something to add and no size literal to count it. Otherwise it
      answers, and with nothing to add what it answers is the unit as it was. */
  lemma RefusesExactly(u: Unit, entries: seq<Row>)
    ensures Register(u, entries) == Failed(NoTable) <==> u.table.None?
    ensures forall text :: Register(u, entries) == Failed(BadRow(text)) <==>
              u.table.Some? && exists i: nat :: FirstNotRow(u.table.value, i, text)
    ensures Register(u, entries) == Failed(NoSize) <==>
              u.table.Some? && AllKnown(u.table.value) && SomethingToAdd(u.table.value, entries) && u.size.None?
    ensures u.table.Some? && AllKnown(u.table.value) && !SomethingToAdd(u.table.value, entries) ==>
              Register(u, entries) == Done(u, [])
    ensures Register(u, entries).Done? <==>
              u.table.Some? && AllKnown(u.table.value) && (SomethingToAdd(u.table.value, entries) ==> u.size.Some?)
  {
    if u.table.Some? {
      var ls := u.table.value;
      if AllKnown(ls) {
        AddsExactly(ls, entries);
      } else {
        forall i: nat, text
          ensures FirstNotRow(ls, i, text) ==> text == FirstBad(ls)
        {
          FirstBadIsFirst(ls, i, text);
        }
        FirstBadIsFirst(ls, 0, "");
      }
    }
  }

  // ------------------------------------------------------------ what an address resolves to

  /** The table as a plain map: the routine registered for an address. */
  function Resolve(rows: seq<Row>, va: nat): Option<string> {
    if rows == [] then None
    else if rows[|rows| - 1].va == va then Some(rows[|rows| - 1].name)
    else Resolve(rows[..|rows| - 1], va)
  }

  lemma {:induction false} ResolveFinds(rows: seq<Row>, va: nat)
    ensures Resolve(rows, va).None? <==> va !in Addresses(rows)
    ensures Resolve(rows, va).Some? ==> Row(va, Resolve(rows, va).value) in rows
  {
    if rows != [] {
      AddressesSplit(rows);
      ResolveFinds(rows[..|rows| - 1], va);
      assert rows == rows[..|rows| - 1] + [rows[|rows| - 1]];
    }
  }

  /** With distinct addresses a row is what its address resolves to. */
  lemma ResolveRow(rows: seq<Row>, r: Row)
    requires DistinctVas(rows) && r in rows
    ensures Resolve(rows, r.va) == Some(r.name)
  {
    ResolveFinds(rows, r.va);
    AddressesMean(rows);
    var found := Row(r.va, Resolve(rows, r.va).value);
    var i :| 0 <= i < |rows| && rows[i] == found;
    var j :| 0 <= j < |rows| && rows[j] == r;
  }

  /** Every address that had a row resolves as before, every added one to its routine, and
      no other address resolves. */
  lemma OldRowsUnchanged(u: Unit, entries: seq<Row>, va: nat)
    requires u.table.Some? && AllKnown(u.table.value) && DistinctVas(RowsOf(u.table.value))
    requires Register(u, entries).Done?
    ensures var r := Register(u, entries);
            var rows := RowsOf(u.table.value);
            r.after.table.Some? && AllKnown(r.after.table.value) &&
            Resolve(RowsOf(r.after.table.value), va) ==
              if va in Addresses(rows) then Resolve(rows, va) else Resolve(r.added, va)
  {
    var rows, added := RowsOf(u.table.value), Register(u, entries).added;
    if added == [] {
      ResolveFinds(rows, va);
    } else {
      RegisterWrites(u, entries);
      RegisterAddsWhatIsMissing(u, entries);
      NewRowsAreNew(Sort(entries, false), Addresses(rows));
      MergedResolves(rows, added, va);
    }
  }

  lemma MergedResolves(rows: seq<Row>, added: seq<Row>, va: nat)
    requires DistinctVas(rows) && DistinctVas(added) && forall r :: r in added ==> r.va !in Addresses(rows)
    ensures Resolve(Sort(rows + added, true), va) ==
            if va in Addresses(rows) then Resolve(rows, va) else Resolve(added, va)
  {
    var all := Sort(rows + added, true);
    MergedInOrder(rows, added);
    SameRows(rows + added, all);
    ResolveFinds(rows, va);
    ResolveFinds(added, va);
    ResolveFinds(all, va);
    SameAddresses(rows + added, all);
    AddressesJoin(rows, added);
    if va in Addresses(rows) {
      ResolveRow(all, Row(va, Resolve(rows, va).value));
    } else if va in Addresses(added) {
      ResolveRow(all, Row(va, Resolve(added, va).value));
    }
  }

  // ------------------------------------------------------------ the lookups

  /** recomp_lookup without the flat table: a binary search over the counted rows. */
  method BinarySearch(rows: seq<Row>, size: nat, va: nat) returns (r: Option<string>)
    requires StrictlyAscending(rows) && size == |rows|
    ensures r == Resolve(rows, va)
  {
    ResolveFinds(rows, va);
    var lo, hi := 0, size;
    while lo < hi
      invariant 0 <= lo <= hi <= |rows|
      invariant forall i :: 0 <= i < lo ==> rows[i].va < va
      invariant forall i :: hi <= i < |rows| ==> rows[i].va > va
    {
      var mid := lo + (hi - lo) / 2;
      if rows[mid].va < va {
        lo := mid + 1;
      } else if rows[mid].va > va {
        hi := mid;
      } else {
        ResolveRow(rows, rows[mid]);
        return Some(rows[mid].name);
      }
    }
    r := None;
  }

  /** recomp_dispatch_init: one cell for each address of the span, written from the rows. */
  method BuildFlat(rows: seq<Row>, size: nat, base: nat, span: nat) returns (flat: array<Option<string>>)
    requires size == |rows| && Spanned(rows, base, span)
    ensures fresh(flat) && flat.Length == span
    ensures forall va :: base <= va < base + span ==> flat[va - base] == Resolve(rows, va)
  {
    flat := new Option<string>[span](i => None);
    for i := 0 to size
      invariant forall va :: base <= va < base + span ==> flat[va - base] == Resolve(rows[..i], va)
    {
      assert rows[..i + 1][..i] == rows[..i];
      flat[rows[i].va - base] := Some(rows[i].name);
    }
    assert rows[..size] == rows;
  }

  /** recomp_lookup with the flat table: nothing outside the span resolves. */
  method FlatLookup(flat: array<Option<string>>, rows: seq<Row>, base: nat, span: nat, va: nat)
    returns (r: Option<string>)
    requires flat.Length == span && Spanned(rows, base, span)
    requires forall a :: base <= a < base + span ==> flat[a - base] == Resolve(rows, a)
    ensures r == Resolve(rows, va)
  {
    if base <= va < base + span {
      r := flat[va - base];
    } else {
      ResolveFinds(rows, va);
      r := None;
    }
  }

  /** On a unit that keeps the invariants, as every edit that adds a row does, the two
      lookups agree with each other and with the map, on every address there is. */
  method LookupsAgree(u: Unit, va: nat) returns (searched: Option<string>, flat: Option<string>)
    requires InOrder(u) && u.base.Some? && u.span.Some?
    ensures searched == flat == Resolve(RowsOf(u.table.value), va)
  {
    var rows, size, base, span := RowsOf(u.table.value), u.size.value, u.base.value, u.span.value;
    searched := BinarySearch(rows, size, va);
    var cells := BuildFlat(rows, size, base, span);
    flat := FlatLookup(cells, rows, base, span, va);
  }

  // ------------------------------------------------------------ the editor as it is written

  /** One pass over the sorted entries, growing the set of addresses present as it goes. */
  method CollectRows(sorted: seq<Row>, rows: seq<Row>) returns (added: seq<Row>)
    ensures added == NewRows(sorted, Addresses(rows))
  {
    var present := Addresses(rows);
    added := [];
    for i := 0 to |sorted|
      invariant added == NewRows(sorted[..i], Addresses(rows))
      invariant present == Addresses(rows) + Addresses(added)
    {
      assert sorted[..i + 1][..i] == sorted[..i];
      if sorted[i].va !in present {
        present := present + {sorted[i].va};
        AddressesGrow(added, sorted[i]);
        added := added + [sorted[i]];
      }
    }
    assert sorted[..|sorted|] == sorted;
  }

  lemma AddressesGrow(rows: seq<Row>, r: Row)
    ensures Addresses(rows + [r]) == Addresses(rows) + {r.va}
  {
    AddressesSplit(rows + [r]);
    assert (rows + [r])[..|rows|] == rows;
  }

  /** `register_dispatch`. */
  method RegisterDispatch(u: Unit, entries: seq<Row>) returns (r: Outcome)
    ensures r == Register(u, entries)
  {
    if u.table.None? {
      return Failed(NoTable);
    }
    var ls := u.table.value;
    if !AllKnown(ls) {
      return Failed(BadRow(FirstBad(ls)));
    }
    var rows := RowsOf(ls);
    var added := CollectRows(Sort(entries, false), rows);
    if added == [] {
      return Done(u, []);
    }
    if u.size.None? {
      return Failed(NoSize);
    }
    var all := Sort(rows + added, true);
    SortKeepsSize(rows + added, true);
    r := Done(Rewritten(u, all), added);
  }
}
