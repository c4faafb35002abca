/** The lifted DrawVertices: the command words it writes for an accepted request, and what
    the graphics chip reads out of them. Words are 32 bits wide. */
module DrawPacket {

  const WORD: nat := 0x1_0000_0000
  const INDEX_LIMIT: nat := 0x100_0000
  const BATCH: nat := 256

  /** `a | b`, bit by bit. */
  function Or(a: nat, b: nat): nat
    decreases a + b
  {
    if a == 0 && b == 0 then 0
    else 2 * Or(a / 2, b / 2) + if a % 2 == 1 || b % 2 == 1 then 1 else 0
  }

  function Pow2(k: nat): (p: nat)
    ensures p > 0
  {
    if k == 0 then 1 else 2 * Pow2(k - 1)
  }

  lemma {:induction false} OrNothing(a: nat)
    ensures Or(a, 0) == a
  {
    if a > 0 {
      OrNothing(a / 2);
    }
  }

  /** Or-ing in a value below the low `k` bits of a shifted one adds it. */
  lemma {:induction false} OrBelow(top: nat, k: nat, low: nat)
    requires low < Pow2(k)
    ensures Or(top * Pow2(k), low) == top * Pow2(k) + low
  {
    if k == 0 {
      OrNothing(top);
    } else {
      var half := top * Pow2(k - 1);
      assert top * Pow2(k) == 2 * half;
      OrBelow(top, k - 1, low / 2);
      assert (2 * half) / 2 == half && (2 * half) % 2 == 0;
    }
  }

  /** A batch word: `top << 24 | low`. */
  function Joined(top: nat, low: nat): nat {
    Or(top * INDEX_LIMIT, low)
  }

  lemma JoinedBelow(top: nat, low: nat)
    requires top < 256 && low < INDEX_LIMIT
    ensures Joined(top, low) == top * INDEX_LIMIT + low
    ensures Joined(top, low) / INDEX_LIMIT == top && Joined(top, low) % INDEX_LIMIT == low
    ensures Joined(top, low) < WORD
  {
    TwentyFourBits();
    OrBelow(top, 24, low);
  }

  lemma TwentyFourBits()
    ensures Pow2(24) == INDEX_LIMIT
  {
    assert Pow2(8) == 256;
    assert Pow2(16) == 65536;
  }

  /** sub_00199300's test: other requests go to the original body. */
  predicate Accepted(start: nat, count: nat) {
    0 < count <= 65536 && start < INDEX_LIMIT && count <= INDEX_LIMIT - start
  }

  /** `((count - 1) >> 8) + 1`: the number of batch words. */
  function BatchWords(count: nat): nat
    requires count > 0
  {
    (count - 1) / BATCH + 1
  }

  /** The method header: `0x40001810 + (words << 18)`. */
  function HeaderWord(words: nat): nat {
    (0x4000_1810 + words * 0x4_0000) % WORD
  }

  /** What the chip reads out of a method header: a count in bits 18 to 28, and the method. */
  function HeaderCount(w: nat): nat { w / 0x4_0000 % 2048 }

  function HeaderRest(w: nat): nat { w % 0x4_0000 + w / 0x2000_0000 * 0x2000_0000 }

  /** The header carries the number of batch words, and it fits its 11 bits. */
  lemma HeaderHoldsCount(start: nat, count: nat)
    requires Accepted(start, count)
    ensures var n := BatchWords(count);
            n <= 256 && HeaderCount(HeaderWord(n)) == n && HeaderRest(HeaderWord(n)) == 0x4000_1810
  {}

  /** The indices a batch word draws: a first index in the low 24 bits, and one less than
      how many in the top eight. */
  function Drawn(w: nat): seq<nat> {
    seq(w / INDEX_LIMIT + 1, i requires i >= 0 => w % INDEX_LIMIT + i)
  }

  function DrawnByAll(ws: seq<nat>): seq<nat> {
    if ws == [] then [] else Drawn(ws[0]) + DrawnByAll(ws[1..])
  }

  function Range(start: nat, count: nat): seq<nat> {
    seq(count, i requires i >= 0 => start + i)
  }

  /** The batch words: 256 indices each, and the last with what is left. */
  function Batches(start: nat, count: nat): (ws: seq<nat>)
    requires count > 0 && start + count <= INDEX_LIMIT
    ensures |ws| == BatchWords(count)
    decreases count
  {
    if count > BATCH then [Joined(255, start)] + Batches(start + BATCH, count - BATCH)
    else [Joined(count - 1, start)]
  }

  /** The batch words draw exactly the requested indices, in order; no word overflows and no
      index spills past its 24 bits. */
  lemma {:induction false} BatchesDrawTheRange(start: nat, count: nat)
    requires count > 0 && start + count <= INDEX_LIMIT
    ensures DrawnByAll(Batches(start, count)) == Range(start, count)
    ensures forall w :: w in Batches(start, count) ==> w < WORD
    ensures forall i :: i in Range(start, count) ==> i < INDEX_LIMIT
    decreases count
  {
    if count > BATCH {
      JoinedBelow(255, start);
      var rest := Batches(start + BATCH, count - BATCH);
      BatchesDrawTheRange(start + BATCH, count - BATCH);
      assert ([Joined(255, start)] + rest)[1..] == rest;
      assert Range(start, count) == Range(start, BATCH) + Range(start + BATCH, count - BATCH);
      assert Drawn(Joined(255, start)) == Range(start, BATCH);
    } else {
      JoinedBelow(count - 1, start);
      assert Drawn(Joined(count - 1, start)) == Range(start, count);
      assert DrawnByAll([]) == [];
    }
  }

  function Head(prim: nat, esi: nat): (ws: seq<nat>)
    ensures |ws| == 3
  {
    [0x0004_17FC, prim, HeaderWord(esi)]
  }

  function Tail(): (ws: seq<nat>)
    ensures |ws| == 2
  {
    [0x0004_17FC, 0]
  }

  /** The whole packet: Begin with the primitive, the batches, End. */
  function Packet(prim: nat, start: nat, count: nat): seq<nat>
    requires Accepted(start, count)
  {
    Head(prim, BatchWords(count)) + Batches(start, count) + Tail()
  }

  /** A ring with some of its words, from `at` on, overwritten. */
  function Splice(ring: seq<nat>, at: nat, words: seq<nat>): (r: seq<nat>)
    requires at + |words| <= |ring|
    ensures |r| == |ring|
  {
    ring[..at] + words + ring[at + |words|..]
  }

  lemma SpliceMeans(ring: seq<nat>, at: nat, words: seq<nat>)
    requires at + |words| <= |ring|
    ensures Splice(ring, at, words)[at..at + |words|] == words
    ensures forall k :: 0 <= k < |ring| && !(at <= k < at + |words|) ==> Splice(ring, at, words)[k] == ring[k]
  {}

  /** One store into the ring, behind the `words` already written over what `was` there. */
  method Write(ring: array<nat>, i: nat, w: nat, ghost was: seq<nat>, ghost at: nat, ghost words: seq<nat>)
    requires |was| == ring.Length && i == at + |words| < ring.Length
    requires ring[..] == Splice(was, at, words)
    modifies ring
    ensures ring[..] == Splice(was, at, words + [w])
  {
    ring[i] := w;
  }

  /** The batch words, written one behind the other. */
  method EmitBatches(ring: array<nat>, at: nat, start: nat, count: nat) returns (next: nat)
    requires count > 0 && start + count <= INDEX_LIMIT && at + BatchWords(count) <= ring.Length
    modifies ring
    ensures next == at + BatchWords(count)
    ensures ring[..] == Splice(old(ring[..]), at, Batches(start, count))
  {
    var eax, ecx: nat, edi: nat := at, start, count;
    ghost var was, done: seq<nat> := ring[..], [];
    ghost var all := Batches(start, count);
    while edi > 256
      invariant 0 < edi && ecx + edi <= INDEX_LIMIT && eax == at + |done|
      invariant Left(all, done, ecx, edi) && at + |all| <= ring.Length
      invariant ring[..] == Splice(was, at, done)
    {
      ghost var more := BatchFirst(all, done, ecx, edi);
      Write(ring, eax, Joined(255, ecx), was, at, done);
      done := more;
      eax := eax + 1;
      ecx := ecx + 256;
      edi := edi - 256;
    }
    BatchLast(all, done, ecx, edi);
    Write(ring, eax, Joined(edi - 1, ecx), was, at, done);
    next := eax + 1;
  }

  /** With `done` written, the batches from `start` on are what is left of `all`. */
  predicate Left(all: seq<nat>, done: seq<nat>, start: nat, count: nat) {
    count > 0 && start + count <= INDEX_LIMIT && done + Batches(start, count) == all
  }

  lemma BatchFirst(all: seq<nat>, done: seq<nat>, start: nat, count: nat) returns (more: seq<nat>)
    requires count > BATCH && Left(all, done, start, count)
    ensures more == done + [Joined(255, start)] && |more| <= |all|
    ensures Left(all, more, start + BATCH, count - BATCH)
  {
    more := done + [Joined(255, start)];
  }

  lemma BatchLast(all: seq<nat>, done: seq<nat>, start: nat, count: nat)
    requires count <= BATCH && Left(all, done, start, count)
    ensures all == done + [Joined(count - 1, start)]
  {}

  /** Three words of a head, and two of a tail. */
  method EmitHead(ring: array<nat>, at: nat, prim: nat, esi: nat)
    requires at + 3 <= ring.Length
    modifies ring
    ensures ring[at..at + 3] == Head(prim, esi)
    ensures forall k :: 0 <= k < ring.Length && !(at <= k < at + 3) ==> ring[k] == old(ring[k])
  {
    ring[at] := 0x0004_17FC;
    ring[at + 1] := prim;
    ring[at + 2] := (0x4000_1810 + esi * 0x4_0000) % WORD;
  }

  method EmitTail(ring: array<nat>, at: nat)
    requires at + 2 <= ring.Length
    modifies ring
    ensures ring[at..at + 2] == Tail()
    ensures forall k :: 0 <= k < ring.Length && !(at <= k < at + 2) ==> ring[k] == old(ring[k])
  {
    ring[at] := 0x0004_17FC;
    ring[at + 1] := 0;
  }

  method EmitBody(ring: array<nat>, at: nat, start: nat, count: nat) returns (next: nat)
    requires count > 0 && start + count <= INDEX_LIMIT && at + BatchWords(count) <= ring.Length
    modifies ring
    ensures next == at + BatchWords(count) && ring[at..next] == Batches(start, count)
    ensures forall k :: 0 <= k < ring.Length && !(at <= k < next) ==> ring[k] == old(ring[k])
  {
    SpliceMeans(ring[..], at, Batches(start, count));
    ghost var was := ring[..];
    next := EmitBatches(ring, at, start, count);
    assert forall k :: 0 <= k < ring.Length ==> ring[k] == ring[..][k] && was[k] == old(ring[k]);
    assert ring[at..next] == ring[..][at..next];
  }

  /** jsrf_draw_vertices_lift, from the reservation on: the ring has room for the words it
      asked for, `esi + 5`; exactly those are written, and they are the packet. `eax` counts
      words. */
  method Emit(ring: array<nat>, at: nat, prim: nat, start: nat, count: nat) returns (next: nat)
    requires Accepted(start, count) && at + BatchWords(count) + 5 <= ring.Length
    modifies ring
    ensures next == at + BatchWords(count) + 5
    ensures ring[at..next] == Packet(prim, start, count)
    ensures forall k :: 0 <= k < ring.Length && !(at <= k < next) ==> ring[k] == old(ring[k])
  {
    var esi := (count - 1) / 256 + 1;
    EmitHead(ring, at, prim, esi);
    var eax := EmitBody(ring, at + 3, start, count);
    EmitTail(ring, eax);
    next := eax + 2;
    assert ring[at..at + 3] == Head(prim, esi);
    assert ring[at + 3..eax] == Batches(start, count);
    ThreeParts(ring[..], at, at + 3, eax, next);
  }

  lemma ThreeParts(s: seq<nat>, a: nat, b: nat, c: nat, d: nat)
    requires a <= b <= c <= d <= |s|
    ensures s[a..d] == s[a..b] + s[b..c] + s[c..d]
  {}

  // ------------------------------------------------------------ what the chip makes of it

  /** One write of a method register, as the chip's pusher decodes it. */
  datatype Command = Command(subchannel: nat, register: nat, data: nat)

  /** A method header: the mask picks its kind, bits 18 to 28 the count, 13 to 15 the
      subchannel, and 2 to 12 the method. */
  predicate Increasing(h: nat) { h % WORD / 0x2000_0000 == 0 && h % 4 == 0 && h / 0x1_0000 % 4 == 0 }

  predicate NonIncreasing(h: nat) { h % WORD / 0x2000_0000 == 2 && h % 4 == 0 && h / 0x1_0000 % 4 == 0 }

  /** The pusher: each header is followed by its data words, for one method register or for
      consecutive ones. */
  function Decode(ws: seq<nat>): seq<Command> {
    if ws == [] then []
    else
      var h := ws[0];
      var count, register, subchannel := h / 0x4_0000 % 0x800, h % 0x2000 / 4 * 4, h / 0x2000 % 8;
      if !(Increasing(h) || NonIncreasing(h)) || count == 0 || 1 + count > |ws| then Decode(ws[1..])
      else
        var stride := if Increasing(h) then 4 else 0;
        seq(count, i requires 0 <= i < count => Command(subchannel, register + i * stride, ws[1 + i]))
        + Decode(ws[1 + count..])
  }

  /** SET_BEGIN_END and DRAW_ARRAYS, on subchannel 0. */
  function BeginEnd(data: nat): Command { Command(0, 0x17FC, data) }

  function DrawArrays(ws: seq<nat>): seq<Command> {
    seq(|ws|, i requires 0 <= i < |ws| => Command(0, 0x1810, ws[i]))
  }

  lemma DecodeBeginEnd(data: nat, rest: seq<nat>)
    ensures Decode([0x0004_17FC, data] + rest) == [BeginEnd(data)] + Decode(rest)
  {
    var ws := [0x0004_17FC, data] + rest;
    BeginEndFields();
    assert ws[1 + 1..] == rest && ws[0] == 0x0004_17FC && ws[1] == data;
  }

  lemma BeginEndFields()
    ensures var h := 0x0004_17FC;
            Increasing(h) && h / 0x4_0000 % 0x800 == 1 && h % 0x2000 / 4 * 4 == 0x17FC && h / 0x2000 % 8 == 0
  {}

  lemma HeaderFields(n: nat)
    requires 0 < n <= 256
    ensures var h := HeaderWord(n);
            && !Increasing(h) && NonIncreasing(h)
            && h / 0x4_0000 % 0x800 == n && h % 0x2000 / 4 * 4 == 0x1810 && h / 0x2000 % 8 == 0
  {}

  lemma DecodeDraws(batches: seq<nat>, rest: seq<nat>)
    requires 0 < |batches| <= 256
    ensures Decode([HeaderWord(|batches|)] + batches + rest) == DrawArrays(batches) + Decode(rest)
  {
    var ws, n := [HeaderWord(|batches|)] + batches + rest, |batches|;
    HeaderFields(n);
    assert ws[1 + n..] == rest && ws[0] == HeaderWord(n);
    assert ws[1..1 + n] == batches;
    DecodeRepeated(ws, n);
  }

  /** A header that repeats one register of subchannel 0. */
  lemma DecodeRepeated(ws: seq<nat>, n: nat)
    requires 1 + n <= |ws| && n > 0 && !Increasing(ws[0]) && NonIncreasing(ws[0])
    requires var h := ws[0]; h / 0x4_0000 % 0x800 == n && h % 0x2000 / 4 * 4 == 0x1810 && h / 0x2000 % 8 == 0
    ensures Decode(ws) == DrawArrays(ws[1..1 + n]) + Decode(ws[1 + n..])
  {
    SameRegister(ws, n);
  }

  lemma SameRegister(ws: seq<nat>, n: nat)
    requires 1 + n <= |ws|
    ensures seq(n, i requires 0 <= i < n => Command(0, 0x1810 + i * 0, ws[1 + i])) == DrawArrays(ws[1..1 + n])
  {
    var data := ws[1..1 + n];
    assert forall i :: 0 <= i < n ==> data[i] == ws[1 + i];
  }

  /** What a packet is to the chip: Begin with the primitive, draws of batches whose indices
      are exactly those requested, in order, and End. */
  lemma PacketDecodes(prim: nat, start: nat, count: nat)
    requires Accepted(start, count)
    ensures Decode(Packet(prim, start, count)) ==
            [BeginEnd(prim)] + DrawArrays(Batches(start, count)) + [BeginEnd(0)]
    ensures DrawnByAll(Batches(start, count)) == Range(start, count)
  {
    var batches := Batches(start, count);
    var rest := [HeaderWord(|batches|)] + batches + Tail();
    BatchesDrawTheRange(start, count);
    HeaderHoldsCount(start, count);
    assert Packet(prim, start, count) == [0x0004_17FC, prim] + rest;
    DecodeBeginEnd(prim, rest);
    DecodeDraws(batches, Tail());
    assert Tail() == [0x0004_17FC, 0] + [];
    DecodeBeginEnd(0, []);
  }

  /** A request is lifted exactly when it draws something, with no more batches than 256, and
      every index fits its 24 bits. */
  lemma AcceptedExactly(start: nat, count: nat)
    ensures Accepted(start, count) <==>
              count > 0 && BatchWords(count) <= 256 && forall i :: i in Range(start, count) ==> i < 0x100_0000
  {
    if count > 0 {
      var range := Range(start, count);
      assert range[count - 1] == start + count - 1 && range[count - 1] in range;
      forall i | i in range
        ensures i < start + count
      {
        var k :| 0 <= k < |range| && range[k] == i;
      }
    }
  }
}
