/** Immediate-mode drawing, assembled: the mirror keeps each attribute's current value,
    emits a vertex at each position write, and refuses what the hardware would have drawn
    with a value from before Begin. Attribute values are four opaque words. */
module VertexAssembly {

  const SLOTS: nat := 16
  const MAX_VERTICES: nat := 256
  const MINUS_ONE: nat := 0xFFFF_FFFF
  const ONE: nat := 0x3F80_0000

  datatype Quad = Quad(x: nat, y: nat, z: nat, w: nat)

  /** One call of d3d8m_imm_data: a register, and two or four words. */
  datatype Call = Call(reg: nat, n: nat, a: nat, b: nat, c: nat, d: nat)

  /** Register -1 is the position too. */
  function SlotOf(call: Call): nat {
    if call.reg == MINUS_ONE then 0 else call.reg
  }

  function ValueOf(call: Call): Quad {
    Quad(call.a, call.b, if call.n == 4 then call.c else 0, if call.n == 4 then call.d else ONE)
  }

  // ------------------------------------------------------------ what the calls mean

  /** The indices of the position writes. */
  function Positions(calls: seq<Call>): (ks: seq<nat>)
    ensures forall j :: 0 <= j < |ks| ==> ks[j] < |calls| && SlotOf(calls[ks[j]]) == 0
    ensures forall i, j :: 0 <= i < j < |ks| ==> ks[i] < ks[j]
  {
    if calls == [] then []
    else
      var k := |calls| - 1;
      Positions(calls[..k]) + if SlotOf(calls[k]) == 0 then [k] else []
  }

  lemma {:induction false} PositionsAreAll(calls: seq<Call>, k: nat)
    requires k < |calls| && SlotOf(calls[k]) == 0
    ensures k in Positions(calls)
  {
    var n := |calls| - 1;
    if k < n {
      PositionsAreAll(calls[..n], k);
    }
  }

  /** Is call `i` the last write of a slot? */
  predicate LatestWrite(calls: seq<Call>, slot: nat, i: nat) {
    i < |calls| && SlotOf(calls[i]) == slot && forall k :: i < k < |calls| ==> SlotOf(calls[k]) != slot
  }

  /** Is call `i` the first write of its slot? */
  predicate FirstWrite(calls: seq<Call>, i: nat) {
    i < |calls| && forall k :: 0 <= k < i ==> SlotOf(calls[k]) != SlotOf(calls[i])
  }

  predicate Invalid(calls: seq<Call>) {
    exists i :: 0 <= i < |calls| && SlotOf(calls[i]) >= SLOTS
  }

  /** Is there a position write before call `i`? */
  predicate AfterVertex(calls: seq<Call>, i: nat) {
    exists j :: 0 <= j < i && j < |calls| && SlotOf(calls[j]) == 0
  }

  predicate LateAt(calls: seq<Call>, i: nat) {
    i < |calls| && SlotOf(calls[i]) < SLOTS && FirstWrite(calls, i) && AfterVertex(calls, i)
  }

  /** Was an attribute first set after a vertex? */
  predicate LateAttribute(calls: seq<Call>) {
    exists i :: 0 <= i < |calls| && LateAt(calls, i)
  }

  predicate TooMany(calls: seq<Call>) {
    |Positions(calls)| > MAX_VERTICES
  }

  predicate Bad(calls: seq<Call>) {
    Invalid(calls) || LateAttribute(calls) || TooMany(calls)
  }

  /** The slots written so far. */
  function Written(calls: seq<Call>): set<nat> {
    set i | 0 <= i < |calls| && SlotOf(calls[i]) < SLOTS :: SlotOf(calls[i])
  }

  /** The current values after the calls, from those before Begin. */
  function Current(before: seq<Quad>, calls: seq<Call>): (cur: seq<Quad>)
    requires |before| == SLOTS
    ensures |cur| == SLOTS
  {
    if calls == [] then before
    else
      var k := |calls| - 1;
      var cur := Current(before, calls[..k]);
      if SlotOf(calls[k]) < SLOTS then cur[SlotOf(calls[k]) := ValueOf(calls[k])] else cur
  }

  /** A slot's current value is its latest write. */
  lemma {:induction false} CurrentIsLatest(before: seq<Quad>, calls: seq<Call>, slot: nat, i: nat)
    requires |before| == SLOTS && slot < SLOTS && LatestWrite(calls, slot, i)
    ensures Current(before, calls)[slot] == ValueOf(calls[i])
  {
    var k := |calls| - 1;
    if i < k {
      assert LatestWrite(calls[..k], slot, i);
      CurrentIsLatest(before, calls[..k], slot, i);
    }
  }

  lemma {:induction false} SomeLatest(calls: seq<Call>, slot: nat) returns (i: nat)
    requires slot in Written(calls)
    ensures LatestWrite(calls, slot, i)
  {
    var k := |calls| - 1;
    if SlotOf(calls[k]) == slot {
      i := k;
    } else {
      i := SomeLatest(calls[..k], slot);
    }
  }

  lemma {:induction false} SomeFirst(calls: seq<Call>, slot: nat) returns (i: nat)
    requires slot in Written(calls)
    ensures i < |calls| && FirstWrite(calls, i) && SlotOf(calls[i]) == slot < SLOTS
  {
    var k := |calls| - 1;
    if slot in Written(calls[..k]) {
      i := SomeFirst(calls[..k], slot);
    } else {
      i := k;
      assert forall j :: 0 <= j < k ==> calls[..k][j] == calls[j];
    }
  }

  // ------------------------------------------------------------ one more call

  lemma PositionsNext(calls: seq<Call>, call: Call)
    ensures Positions(calls + [call]) == Positions(calls) + if SlotOf(call) == 0 then [|calls|] else []
  {
    assert (calls + [call])[..|calls|] == calls;
  }

  lemma WrittenNext(calls: seq<Call>, call: Call)
    ensures Written(calls + [call]) == Written(calls) + if SlotOf(call) < SLOTS then {SlotOf(call)} else {}
  {
    var longer := calls + [call];
    assert forall i :: 0 <= i < |calls| ==> longer[i] == calls[i];
    assert longer[|calls|] == call;
    assert forall s :: s in Written(calls) ==> s in Written(longer);
  }

  lemma BadNext(calls: seq<Call>, call: Call)
    ensures Bad(calls + [call]) <==>
            || Bad(calls) || SlotOf(call) >= SLOTS
            || (SlotOf(call) !in Written(calls) && Positions(calls) != [])
            || (SlotOf(call) == 0 && |Positions(calls)| == MAX_VERTICES)
  {
    var longer := calls + [call];
    PositionsNext(calls, call);
    assert forall i :: 0 <= i < |calls| ==> longer[i] == calls[i];
    assert Invalid(longer) <==> Invalid(calls) || SlotOf(call) >= SLOTS by {
      assert longer[|calls|] == call;
    }
    LateNext(calls, call);
  }

  /** The same, as it is found out, call by call. */
  predicate BadSoFar(calls: seq<Call>) {
    calls != [] &&
    var k := |calls| - 1;
    var slot := SlotOf(calls[k]);
    || BadSoFar(calls[..k]) || slot >= SLOTS
    || (slot !in Written(calls[..k]) && Positions(calls[..k]) != [])
    || (slot == 0 && |Positions(calls[..k])| >= MAX_VERTICES)
  }

  lemma {:induction false} BadIsFoundOut(calls: seq<Call>)
    ensures BadSoFar(calls) <==> Bad(calls)
  {
    if calls != [] {
      var k := |calls| - 1;
      BadIsFoundOut(calls[..k]);
      BadNext(calls[..k], calls[k]);
      assert calls == calls[..k] + [calls[k]];
    }
  }

  lemma LateNext(calls: seq<Call>, call: Call)
    ensures LateAttribute(calls + [call]) <==>
            LateAttribute(calls) ||
            (SlotOf(call) < SLOTS && SlotOf(call) !in Written(calls) && Positions(calls) != [])
  {
    var longer := calls + [call];
    FirstNext(calls, call);
    AfterNext(calls, call);
    assert longer[|calls|] == call;
    forall i | 0 <= i < |calls|
      ensures LateAt(longer, i) <==> LateAt(calls, i)
    {
      assert longer[i] == calls[i];
    }
    if LateAttribute(calls) {
      var i :| 0 <= i < |calls| && LateAt(calls, i);
      assert LateAt(longer, i);
    }
    assert LateAt(longer, |calls|) <==>
           SlotOf(call) < SLOTS && SlotOf(call) !in Written(calls) && Positions(calls) != [];
  }

  lemma AfterNext(calls: seq<Call>, call: Call)
    ensures forall i :: 0 <= i < |calls| ==> (AfterVertex(calls + [call], i) <==> AfterVertex(calls, i))
    ensures AfterVertex(calls + [call], |calls|) <==> Positions(calls) != []
  {
    var longer := calls + [call];
    assert forall k :: 0 <= k < |calls| ==> longer[k] == calls[k];
    if Positions(calls) != [] {
      assert SlotOf(longer[Positions(calls)[0]]) == 0;
    }
    if AfterVertex(longer, |calls|) {
      var j :| 0 <= j < |calls| && SlotOf(longer[j]) == 0;
      PositionsAreAll(calls, j);
    }
  }

  /** Which writes are first, with one more call. */
  lemma FirstNext(calls: seq<Call>, call: Call)
    ensures forall i :: 0 <= i < |calls| ==> (FirstWrite(calls + [call], i) <==> FirstWrite(calls, i))
    ensures SlotOf(call) < SLOTS ==>
              (FirstWrite(calls + [call], |calls|) <==> SlotOf(call) !in Written(calls))
  {
    var longer := calls + [call];
    assert forall k :: 0 <= k < |calls| ==> longer[k] == calls[k];
    assert longer[|calls|] == call;
    if SlotOf(call) in Written(calls) {
      var k :| 0 <= k < |calls| && SlotOf(calls[k]) == SlotOf(call);
      assert SlotOf(longer[k]) == SlotOf(longer[|calls|]);
    }
  }

  /** The vertices the hardware would emit: every current value, at each position write. */
  function Emitted(before: seq<Quad>, calls: seq<Call>): (vs: seq<seq<Quad>>)
    requires |before| == SLOTS
    ensures |vs| == |Positions(calls)|
  {
    if calls == [] then []
    else
      var k := |calls| - 1;
      Emitted(before, calls[..k]) + if SlotOf(calls[k]) == 0 then [Current(before, calls)] else []
  }

  /** The attributes written by the last position write. */
  function EmitSet(calls: seq<Call>): set<nat> {
    if calls == [] then {}
    else
      var k := |calls| - 1;
      if SlotOf(calls[k]) == 0 then Written(calls) else EmitSet(calls[..k])
  }

  lemma EmittedNext(before: seq<Quad>, calls: seq<Call>, call: Call)
    requires |before| == SLOTS
    ensures Emitted(before, calls + [call]) ==
            Emitted(before, calls) + if SlotOf(call) == 0 then [Current(before, calls + [call])] else []
    ensures EmitSet(calls + [call]) == if SlotOf(call) == 0 then Written(calls + [call]) else EmitSet(calls)
    ensures Current(before, calls + [call]) ==
            if SlotOf(call) < SLOTS then Current(before, calls)[SlotOf(call) := ValueOf(call)]
            else Current(before, calls)
  {
    assert (calls + [call])[..|calls|] == calls;
  }

  lemma {:induction false} EmittedAt(before: seq<Quad>, calls: seq<Call>, j: nat)
    requires |before| == SLOTS && j < |Positions(calls)|
    ensures Emitted(before, calls)[j] == Current(before, calls[..Positions(calls)[j] + 1])
  {
    var k := |calls| - 1;
    var ks := Positions(calls[..k]);
    if j < |ks| {
      EmittedAt(before, calls[..k], j);
      assert calls[..k][..ks[j] + 1] == calls[..ks[j] + 1];
    } else {
      assert calls[..k + 1] == calls;
    }
  }

  lemma {:induction false} EmitSetAt(calls: seq<Call>)
    requires Positions(calls) != []
    ensures var ks := Positions(calls); EmitSet(calls) == Written(calls[..ks[|ks| - 1] + 1])
  {
    var k := |calls| - 1;
    if SlotOf(calls[k]) == 0 {
      assert calls[..k + 1] == calls;
    } else {
      var ks := Positions(calls[..k]);
      EmitSetAt(calls[..k]);
      assert calls[..k][..ks[|ks| - 1] + 1] == calls[..ks[|ks| - 1] + 1];
    }
  }

  // ------------------------------------------------------------ the mirror

  class Mirror {
    const cur: array<Quad>
    const verts: array<seq<Quad>>
    var on: bool
    var prim: nat
    var n: nat
    var isSet: set<nat>
    var emitSet: set<nat>
    var bad: bool

    /** The calls since Begin, and the values before it. */
    ghost var calls: seq<Call>
    ghost var before: seq<Quad>

    ghost predicate Valid()
      reads this, cur, verts
    {
      Holds(calls)
    }

    constructor ()
      ensures Valid() && !on && fresh(cur) && fresh(verts)
    {
      cur := new Quad[SLOTS](i => Quad(0, 0, 0, 0));
      verts := new seq<Quad>[MAX_VERTICES](i => []);
      on, prim, n, isSet, emitSet, bad := false, 0, 0, {}, {}, false;
      calls, before := [], seq(SLOTS, i => Quad(0, 0, 0, 0));
      new;
      assert cur[..] == before;
    }

    /** d3d8m_imm_begin. */
    method Begin(p: nat)
      requires Valid()
      modifies this
      ensures Valid() && on && prim == p && calls == [] && before == old(cur[..])
    {
      on, prim, n, isSet, emitSet, bad := true, p, 0, {}, {}, false;
      calls, before := [], cur[..];
    }

    /** d3d8m_imm_data. Outside Begin and End nothing is recorded. */
    method Data(call: Call)
      requires Valid()
      modifies this`n, this`isSet, this`emitSet, this`bad, this`calls, cur, verts
      ensures Valid() && calls == if on then old(calls) + [call] else old(calls)
    {
      if on {
        Record(call);
      }
    }

    /** Its work, between Begin and End. */
    method Record(call: Call)
      requires Valid() && on
      modifies this`n, this`isSet, this`emitSet, this`bad, this`calls, cur, verts
      ensures Valid() && calls == old(calls) + [call]
    {
      ghost var longer := calls + [call];
      if SlotOf(call) >= SLOTS {
        Ignore(call, longer);
      } else {
        SetSlot(call, longer);
      }
      calls := longer;
    }

    /** A call outside the sixteen slots. */
    method Ignore(call: Call, ghost longer: seq<Call>)
      requires Valid() && on && SlotOf(call) >= SLOTS && longer == calls + [call]
      modifies this`bad
      ensures Holds(longer)
    {
      assert longer[..|calls|] == calls;
      WrittenNext(calls, call);
      PositionsNext(calls, call);
      EmittedNext(before, calls, call);
      bad := true;
    }

    /** The fields are what the calls so far make them. */
    ghost predicate Holds(longer: seq<Call>)
      reads this, cur, verts
    {
      && cur.Length == SLOTS && verts.Length == MAX_VERTICES && |before| == SLOTS
      && cur as object != verts as object
      && cur[..] == Current(before, longer)
      && isSet == Written(longer)
      && (if TooMany(longer) then n == MAX_VERTICES else ShownOk(verts[..], n, emitSet, before, longer))
      && (on ==> bad == BadSoFar(longer))
    }

    /** A write of one of the sixteen slots. */
    method SetSlot(call: Call, ghost longer: seq<Call>)
      requires Valid() && on && SlotOf(call) < SLOTS && longer == calls + [call]
      modifies this`n, this`isSet, this`emitSet, this`bad, cur, verts
      ensures Holds(longer)
    {
      assert longer[..|calls|] == calls;
      WrittenNext(calls, call);
      PositionsNext(calls, call);
      EmittedNext(before, calls, call);
      var slot := SlotOf(call);
      ghost var values := cur[..];
      cur[slot] := ValueOf(call);
      assert cur[..] == values[slot := ValueOf(call)] == Current(before, longer);
      if slot !in isSet && n != 0 {
        bad := true;
      }
      isSet := isSet + {slot};
      if slot == 0 {
        if n >= MAX_VERTICES {
          bad := true;
        } else {
          EmitVertex(longer);
        }
      }
    }

    /** The position was written: a vertex with every current value. */
    method EmitVertex(ghost longer: seq<Call>)
      requires cur.Length == SLOTS && verts.Length == MAX_VERTICES && |before| == SLOTS && n < MAX_VERTICES
      requires cur as object != verts as object
      requires |longer| > 0 && SlotOf(longer[|longer| - 1]) == 0
      requires cur[..] == Current(before, longer) && isSet == Written(longer)
      requires ShownOk(verts[..], n, emitSet, before, longer[..|longer| - 1])
      modifies this`n, this`emitSet, verts
      ensures ShownOk(verts[..], n, emitSet, before, longer) && cur[..] == old(cur[..])
    {
      ghost var calls0, was := longer[..|longer| - 1], verts[..];
      assert longer == calls0 + [longer[|longer| - 1]];
      PositionsNext(calls0, longer[|longer| - 1]);
      EmittedNext(before, calls0, longer[|longer| - 1]);
      verts[n] := cur[..];
      assert verts[..] == was[n := Current(before, longer)];
      assert verts[..][..n + 1] == was[..n] + [Current(before, longer)];
      n := n + 1;
      emitSet := isSet;
    }

    /** d3d8m_imm_end_done. */
    method EndDone()
      requires Valid()
      modifies this`on
      ensures Valid() && !on
    {
      on := false;
    }

    /** The kind-4 arm of d3d8m_streams, at End: the vertices handed to the host and the
        attributes they carry, or nothing when the draw is left to the executor. */
    method Streams() returns (vertices: seq<seq<Quad>>, attributes: set<nat>)
      requires Valid()
      ensures on && !Bad(calls) && Positions(calls) != [] ==> Assembled(calls, vertices, attributes)
      ensures on && !Bad(calls) ==> attributes == EmitSet(calls)
      ensures !on || Bad(calls) || Positions(calls) == [] ==> vertices == []
    {
      BadIsFoundOut(calls);
      attributes := emitSet;
      if bad || n == 0 || !on {
        return [], attributes;
      }
      vertices := verts[..n];
      assert vertices == verts[..][..n];
      NotBadAssembles(before, calls);
    }
  }

  /** At every call from Begin to End, `bad` is set exactly for an invalid register, an
      attribute first set after a vertex, or more than 256 vertices. */
  lemma BadExactly(m: Mirror)
    requires m.Valid() && m.on
    ensures m.bad <==> Invalid(m.calls) || LateAttribute(m.calls) || TooMany(m.calls)
  {
    BadIsFoundOut(m.calls);
  }

  /** Is what the mirror holds what the hardware would have emitted? */
  ghost predicate ShownOk(verts: seq<seq<Quad>>, n: nat, emitSet: set<nat>, before: seq<Quad>, calls: seq<Call>)
    requires |before| == SLOTS
  {
    n == |Positions(calls)| <= |verts| && verts[..n] == Emitted(before, calls) && emitSet == EmitSet(calls)
  }

  /** Does attribute `s` of vertex `j` have the value of its latest write no later than the
      position write? */
  ghost predicate HasLatest(calls: seq<Call>, vertices: seq<seq<Quad>>, j: nat, s: nat)
    requires j < |vertices| == |Positions(calls)| && s < |vertices[j]|
  {
    exists i: nat :: LatestWrite(calls[..Positions(calls)[j] + 1], s, i) && vertices[j][s] == ValueOf(calls[i])
  }

  /** One vertex for each position write, in order; the emitted attributes are all those
      written since Begin up to the last of them; and in every vertex each emitted attribute,
      the position among them, has its latest value since Begin. */
  ghost predicate Assembled(calls: seq<Call>, vertices: seq<seq<Quad>>, attributes: set<nat>) {
    && |vertices| == |Positions(calls)|
    && (forall j :: 0 <= j < |vertices| ==> |vertices[j]| == SLOTS)
    && (forall s :: s in attributes ==> s < SLOTS)
    && (forall j, s :: 0 <= j < |vertices| && s in attributes ==> HasLatest(calls, vertices, j, s))
    && 0 in attributes
    && Positions(calls) != []
    && attributes == Written(calls[..Positions(calls)[|Positions(calls)| - 1] + 1])
  }

  /** If nothing is bad, an attribute emitted with the last vertex was set before the first. */
  lemma SetBeforeFirst(calls: seq<Call>, s: nat) returns (first: nat)
    requires !LateAttribute(calls) && Positions(calls) != [] && s in EmitSet(calls)
    ensures first <= Positions(calls)[0] && SlotOf(calls[first]) == s < SLOTS
  {
    var ks := Positions(calls);
    var front := calls[..ks[|ks| - 1] + 1];
    EmitSetAt(calls);
    first := SomeFirst(front, s);
    assert FirstWrite(calls, first) && SlotOf(calls[first]) < SLOTS by {
      assert forall k :: 0 <= k <= first ==> calls[k] == front[k];
    }
    assert SlotOf(calls[ks[0]]) == 0;
    assert first > ks[0] ==> AfterVertex(calls, first) && LateAt(calls, first);
  }

  /** So no vertex carries a value from before Begin. */
  lemma NotBadAssembles(before: seq<Quad>, calls: seq<Call>)
    requires |before| == SLOTS && !Bad(calls) && Positions(calls) != []
    ensures Assembled(calls, Emitted(before, calls), EmitSet(calls))
  {
    var ks, vs := Positions(calls), Emitted(before, calls);
    forall j | 0 <= j < |vs|
      ensures |vs[j]| == SLOTS
    {
      EmittedAt(before, calls, j);
    }
    forall s | s in EmitSet(calls)
      ensures s < SLOTS
    {
      EmitSetAt(calls);
    }
    forall j, s | 0 <= j < |vs| && s in EmitSet(calls)
      ensures HasLatest(calls, vs, j, s)
    {
      var first := SetBeforeFirst(calls, s);
      VertexHasLatest(before, calls, j, s, first);
    }
    EmitSetAt(calls);
    assert SlotOf(calls[..ks[|ks| - 1] + 1][ks[|ks| - 1]]) == 0;
  }

  lemma VertexHasLatest(before: seq<Quad>, calls: seq<Call>, j: nat, s: nat, first: nat)
    requires |before| == SLOTS && s < SLOTS && j < |Positions(calls)|
    requires first <= Positions(calls)[0] && SlotOf(calls[first]) == s
    ensures |Emitted(before, calls)[j]| == SLOTS && HasLatest(calls, Emitted(before, calls), j, s)
  {
    var upTo := calls[..Positions(calls)[j] + 1];
    EmittedAt(before, calls, j);
    assert SlotOf(upTo[first]) == s;
    var i := SomeLatest(upTo, s);
    CurrentIsLatest(before, upTo, s, i);
    assert upTo[i] == calls[i];
  }

  // ------------------------------------------------------------ in terms of the registers

  /** Does the call write attribute `slot`? The position has register 0 and register -1. */
  predicate Writes(call: Call, slot: nat) {
    slot < 16 && (call.reg == slot || (slot == 0 && call.reg + 1 == 0x1_0000_0000))
  }

  /** Are these the four words the call gives? Two words are filled up with 0.0 and with 1.0,
      a float of exponent 0 and fraction 0. */
  predicate Gives(call: Call, q: Quad) {
    && q.x == call.a && q.y == call.b
    && if call.n == 4 then q.z == call.c && q.w == call.d else q.z == 0 && q.w == 127 * 0x80_0000
  }

  lemma SlotMeans(call: Call)
    ensures forall slot :: Writes(call, slot) <==> slot == SlotOf(call) < SLOTS
    ensures Gives(call, ValueOf(call))
  {}

  /** The position writes, told from the registers. */
  lemma PositionsInRegisters(calls: seq<Call>, k: nat)
    ensures k in Positions(calls) <==> k < |calls| && Writes(calls[k], 0)
  {
    if k < |calls| {
      SlotMeans(calls[k]);
      if SlotOf(calls[k]) == 0 {
        PositionsAreAll(calls, k);
      }
    }
  }

  /** Is call `i` one that the assembly cannot show: it writes no attribute, or one that no
      call before it wrote, after a position write? */
  predicate Unshown(calls: seq<Call>, i: nat)
    requires i < |calls|
  {
    || (forall slot :: 0 <= slot < 16 ==> !Writes(calls[i], slot))
    || exists slot, j :: 0 <= slot < 16 && Writes(calls[i], slot) && 0 <= j < i && Writes(calls[j], 0)
         && forall k :: 0 <= k < i ==> !Writes(calls[k], slot)
  }

  lemma UnshownMeans(calls: seq<Call>, i: nat)
    requires i < |calls|
    ensures Unshown(calls, i) <==> SlotOf(calls[i]) >= SLOTS || LateAt(calls, i)
  {
    forall k | 0 <= k < |calls|
      ensures forall slot :: Writes(calls[k], slot) <==> slot == SlotOf(calls[k]) < SLOTS
    {
      SlotMeans(calls[k]);
    }
    if SlotOf(calls[i]) < SLOTS {
      assert Writes(calls[i], SlotOf(calls[i]));
    }
    if LateAt(calls, i) {
      var j :| 0 <= j < i && SlotOf(calls[j]) == 0;
      assert Writes(calls[j], 0);
    }
  }

  /** What is refused, told from the registers. */
  lemma BadInRegisters(calls: seq<Call>)
    ensures Bad(calls) <==> (exists i :: 0 <= i < |calls| && Unshown(calls, i)) || |Positions(calls)| > 256
  {
    forall i | 0 <= i < |calls|
      ensures Unshown(calls, i) <==> SlotOf(calls[i]) >= SLOTS || LateAt(calls, i)
    {
      UnshownMeans(calls, i);
    }
  }

  lemma SlotsMean(calls: seq<Call>)
    ensures forall k, slot :: 0 <= k < |calls| ==> (Writes(calls[k], slot) <==> slot == SlotOf(calls[k]) < SLOTS)
    ensures forall k :: 0 <= k < |calls| ==> Gives(calls[k], ValueOf(calls[k]))
  {
    forall k | 0 <= k < |calls|
      ensures forall slot :: Writes(calls[k], slot) <==> slot == SlotOf(calls[k]) < SLOTS
      ensures Gives(calls[k], ValueOf(calls[k]))
    {
      SlotMeans(calls[k]);
    }
  }

  /** The attributes drawn, told from the registers: those that some call up to the last
      position write wrote. */
  lemma AttributesInRegisters(calls: seq<Call>, vertices: seq<seq<Quad>>, attributes: set<nat>, s: nat)
    requires Assembled(calls, vertices, attributes)
    ensures s in attributes <==>
              exists i :: 0 <= i <= Positions(calls)[|Positions(calls)| - 1] && Writes(calls[i], s)
  {
    var last := Positions(calls)[|Positions(calls)| - 1];
    var front := calls[..last + 1];
    SlotsMean(calls);
    assert forall i :: 0 <= i < |front| ==> front[i] == calls[i];
    if s in attributes {
      var f := SomeFirst(front, s);
      assert Writes(calls[f], s);
    }
    forall i | 0 <= i <= last && Writes(calls[i], s)
      ensures s in attributes
    {
      assert SlotOf(front[i]) == s;
    }
  }

  /** Is call `i` the last one up to call `last` that wrote the attribute, and are these its
      words? */
  predicate LastGives(calls: seq<Call>, last: nat, s: nat, i: nat, q: Quad)
    requires last < |calls|
  {
    i <= last && Writes(calls[i], s) && Gives(calls[i], q) && forall k :: i < k <= last ==> !Writes(calls[k], s)
  }

  /** Each vertex drawn, told from the registers: every attribute has the words of the last
      call up to the vertex's position write that wrote it. */
  lemma VertexInRegisters(calls: seq<Call>, vertices: seq<seq<Quad>>, attributes: set<nat>, j: nat, s: nat)
    requires Assembled(calls, vertices, attributes) && j < |vertices| && s in attributes
    ensures exists i: nat :: LastGives(calls, Positions(calls)[j], s, i, vertices[j][s])
  {
    var last := Positions(calls)[j];
    var front := calls[..last + 1];
    SlotsMean(calls);
    assert HasLatest(calls, vertices, j, s);
    var i: nat :| LatestWrite(front, s, i) && vertices[j][s] == ValueOf(calls[i]);
    assert forall k :: i <= k <= last ==> front[k] == calls[k];
    assert LastGives(calls, last, s, i, vertices[j][s]);
  }
}
