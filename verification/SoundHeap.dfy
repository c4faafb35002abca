/** The DSOUND lift's allocator: 64-byte handles carved from 64 KB pools, buffers the lift
    owns, and a free list for each. `xbox_ContiguousAlloc` is a parameter of each call that
    may use it: the address it returns, or 0, disjoint from everything it returned before.
    The lift's lock makes the calls one at a time. */
module SoundHeap {

  const H_BYTES: nat := 64
  const POOL_BYTES: nat := 65536
  const MAX_FREE_HANDLES: nat := 4096
  const MAX_FREE_BLOCKS: nat := 64
  const WORD: int := 0x1_0000_0000

  datatype Block = Block(va: nat, len: nat)

  datatype Magic = Nothing | SoundObject | SoundBuffer

  /** The lift's bookkeeping in a handle's own 64 bytes. */
  datatype Header = Header(magic: Magic, refs: nat, data: nat, owned: nat, ownedBytes: nat, dataBytes: nat)

  type Headers = map<nat, Header>

  predicate Apart(a: Block, b: Block) {
    a.va + a.len <= b.va || b.va + b.len <= a.va
  }

  predicate Within(a: Block, b: Block) {
    b.va <= a.va && a.va + a.len <= b.va + b.len
  }

  /** Does the block lie in one that the guest's allocator has given out? */
  ghost predicate Placed(a: Block, taken: set<Block>) {
    exists b :: b in taken && Within(a, b)
  }

  ghost predicate NewBlock(a: Block, taken: set<Block>) {
    a.va > 0 && forall b :: b in taken ==> Apart(a, b)
  }

  lemma NewIsApart(a: Block, taken: set<Block>, b: Block)
    requires NewBlock(a, taken) && Placed(b, taken)
    ensures Apart(a, b)
  {}

  lemma PlacedLater(a: Block, taken: set<Block>, b: Block)
    requires Placed(a, taken)
    ensures Placed(a, taken + {b})
  {
    var c :| c in taken && Within(a, c);
    assert c in taken + {b};
  }

  /** `(bytes + 4095) & ~4095` on 32-bit words. */
  function Rounded(bytes: nat): nat {
    (bytes + 4095) % WORD / 4096 * 4096
  }

  /** The largest size whose rounding does not wrap. */
  const MAX_BUFFER: nat := 0xFFFF_F000

  /** The request, in whole pages and less than one page more, covers the buffer exactly when
      the sum does not wrap; otherwise it is for no bytes at all. */
  lemma RoundedCovers(bytes: nat)
    requires bytes < WORD
    ensures Rounded(bytes) >= bytes <==> bytes <= MAX_BUFFER
    ensures Rounded(bytes) % 4096 == 0 && Rounded(bytes) < bytes + 4096
    ensures bytes > MAX_BUFFER ==> Rounded(bytes) == 0
  {
    var sum := (bytes + 4095) % WORD;
    assert sum == if bytes <= MAX_BUFFER then bytes + 4095 else bytes + 4095 - WORD;
    WholePages(sum);
  }

  lemma WholePages(n: nat)
    ensures n - 4096 < n / 4096 * 4096 <= n && n / 4096 * 4096 % 4096 == 0
  {}

  // ------------------------------------------------------------ what is where

  function HandleBlock(h: nat): Block { Block(h, H_BYTES) }

  predicate IsBuffer(hs: Headers, h: nat) {
    h in hs && hs[h].magic == SoundBuffer
  }

  /** Does a live buffer own the block at its `owned` address? */
  predicate Owns(hs: Headers, h: nat) {
    IsBuffer(hs, h) && hs[h].owned != 0
  }

  function OwnedBlock(hs: Headers, h: nat): Block
    requires h in hs
  {
    Block(hs[h].owned, hs[h].ownedBytes)
  }

  /** Handles, the rest of the pool, owned buffers and free buffers all lie in what was
      given out. */
  ghost predicate AllPlaced(hs: Headers, rest: Block, free: seq<Block>, taken: set<Block>) {
    && (forall h :: h in hs ==> h > 0 && Placed(HandleBlock(h), taken))
    && (rest.len > 0 ==> rest.va > 0 && Placed(rest, taken))
    && (forall h :: Owns(hs, h) ==> hs[h].ownedBytes > 0 && Placed(OwnedBlock(hs, h), taken))
    && (forall i :: 0 <= i < |free| ==> free[i].va > 0 && free[i].len > 0 && Placed(free[i], taken))
  }

  ghost predicate HandlesApart(hs: Headers, rest: Block) {
    && (forall h, k :: h in hs && k in hs && h != k ==> Apart(HandleBlock(h), HandleBlock(k)))
    && (forall h :: h in hs ==> rest.len > 0 ==> Apart(HandleBlock(h), rest))
  }

  ghost predicate OwnedApart(hs: Headers, rest: Block) {
    && (forall h, k :: Owns(hs, h) && Owns(hs, k) && h != k ==> Apart(OwnedBlock(hs, h), OwnedBlock(hs, k)))
    && (forall h, k :: Owns(hs, h) && k in hs ==> Apart(OwnedBlock(hs, h), HandleBlock(k)))
    && (forall h :: Owns(hs, h) ==> rest.len > 0 ==> Apart(OwnedBlock(hs, h), rest))
  }

  ghost predicate FreeApart(hs: Headers, rest: Block, free: seq<Block>) {
    && (forall i, j :: 0 <= i < j < |free| ==> Apart(free[i], free[j]))
    && (forall i, h :: 0 <= i < |free| && h in hs ==> Apart(free[i], HandleBlock(h)))
    && (forall i, h :: 0 <= i < |free| && Owns(hs, h) ==> Apart(free[i], OwnedBlock(hs, h)))
    && (forall i :: 0 <= i < |free| ==> rest.len > 0 ==> Apart(free[i], rest))
  }

  /** Nothing on the handle free list is live, and nothing is on it twice. */
  ghost predicate FreeHandlesOk(hs: Headers, freeH: seq<nat>) {
    && |freeH| <= MAX_FREE_HANDLES
    && (forall i :: 0 <= i < |freeH| ==> freeH[i] in hs && hs[freeH[i]].magic == Nothing)
    && (forall i, j :: 0 <= i < j < |freeH| ==> freeH[i] != freeH[j])
  }

  ghost predicate HeapOk(hs: Headers, rest: Block, freeH: seq<nat>, free: seq<Block>, taken: set<Block>) {
    && AllPlaced(hs, rest, free, taken)
    && HandlesApart(hs, rest) && OwnedApart(hs, rest) && FreeApart(hs, rest, free)
    && FreeHandlesOk(hs, freeH)
    && |free| <= MAX_FREE_BLOCKS
    && forall h :: IsBuffer(hs, h) ==> hs[h].refs > 0
  }

  /** A zeroed handle with its magic and one reference. */
  predicate IsNew(hd: Header, magic: Magic) {
    hd.magic == magic && hd.refs == 1 && hd.data == hd.dataBytes == hd.owned == hd.ownedBytes == 0
  }

  /** A header whose buffer owns nothing. */
  predicate OwnsNothing(hd: Header) {
    (hd.magic == SoundBuffer ==> hd.owned == 0 && hd.refs > 0) && hd.magic != Nothing
  }

  // ------------------------------------------------------------ one change at a time

  /** A handle that was not live gets a header. */
  lemma HeaderSet(hs: Headers, rest: Block, freeH: seq<nat>, free: seq<Block>, taken: set<Block>, h: nat, hd: Header)
    requires HeapOk(hs, rest, freeH, free, taken) && OwnsNothing(hd)
    requires h in hs && hs[h].magic == Nothing && h !in freeH
    ensures HeapOk(hs[h := hd], rest, freeH, free, taken)
  {
    assert forall k :: Owns(hs[h := hd], k) ==> k != h && Owns(hs, k);
  }

  /** A new pool replaces one that is used up. */
  lemma PoolAdded(hs: Headers, rest: Block, freeH: seq<nat>, free: seq<Block>, taken: set<Block>, pool: Block)
    requires HeapOk(hs, rest, freeH, free, taken) && NewBlock(pool, taken)
    ensures HeapOk(hs, pool, freeH, free, taken + {pool})
  {
    TakenGrows(hs, rest, freeH, free, taken, pool);
    assert pool in taken + {pool} && Within(pool, pool);
    forall h | h in hs
      ensures Apart(HandleBlock(h), pool)
    {
      NewIsApart(pool, taken, HandleBlock(h));
    }
    forall h | Owns(hs, h)
      ensures Apart(OwnedBlock(hs, h), pool)
    {
      NewIsApart(pool, taken, OwnedBlock(hs, h));
    }
    forall i | 0 <= i < |free|
      ensures Apart(free[i], pool)
    {
      NewIsApart(pool, taken, free[i]);
    }
  }

  lemma TakenGrows(hs: Headers, rest: Block, freeH: seq<nat>, free: seq<Block>, taken: set<Block>, b: Block)
    requires HeapOk(hs, rest, freeH, free, taken)
    ensures HeapOk(hs, rest, freeH, free, taken + {b})
  {
    forall a | Placed(a, taken)
      ensures Placed(a, taken + {b})
    {
      PlacedLater(a, taken, b);
    }
  }

  /** Is the block in what was given out, and in nobody's use? */
  ghost predicate Spare(hs: Headers, rest: Block, free: seq<Block>, taken: set<Block>, b: Block) {
    && b.va > 0 && b.len > 0 && Placed(b, taken)
    && (forall h :: h in hs ==> Apart(b, HandleBlock(h)))
    && (forall h :: Owns(hs, h) ==> Apart(b, OwnedBlock(hs, h)))
    && (forall i :: 0 <= i < |free| ==> Apart(b, free[i]))
    && (rest.len > 0 ==> Apart(b, rest))
  }

  /** The next 64 bytes of the pool are spare once the rest begins after them. */
  lemma RestCut(hs: Headers, rest: Block, freeH: seq<nat>, free: seq<Block>, taken: set<Block>)
    requires HeapOk(hs, rest, freeH, free, taken) && rest.len >= H_BYTES
    ensures var rest' := Block(rest.va + H_BYTES, rest.len - H_BYTES);
            HeapOk(hs, rest', freeH, free, taken) && Spare(hs, rest', free, taken, HandleBlock(rest.va))
  {
    var rest' := Block(rest.va + H_BYTES, rest.len - H_BYTES);
    var b :| b in taken && Within(rest, b);
    assert Within(HandleBlock(rest.va), b) && Within(rest', b);
  }

  /** A spare block becomes a handle, not yet live. */
  lemma HandleAdded(hs: Headers, rest: Block, freeH: seq<nat>, free: seq<Block>, taken: set<Block>, h: nat, hd: Header)
    requires HeapOk(hs, rest, freeH, free, taken) && hd.magic == Nothing
    requires Spare(hs, rest, free, taken, HandleBlock(h))
    ensures h !in hs && HeapOk(hs[h := hd], rest, freeH, free, taken)
  {
    assert h in hs ==> Apart(HandleBlock(h), HandleBlock(h));
    var hs' := hs[h := hd];
    assert forall k :: IsBuffer(hs', k) ==> k != h && IsBuffer(hs, k);
    assert forall k :: Owns(hs', k) ==> k != h && Owns(hs, k) && OwnedBlock(hs', k) == OwnedBlock(hs, k);
    HandleApart(hs, rest, h, hd);
  }

  lemma HandleApart(hs: Headers, rest: Block, h: nat, hd: Header)
    requires HandlesApart(hs, rest) && (forall k :: k in hs ==> Apart(HandleBlock(h), HandleBlock(k)))
    requires rest.len > 0 ==> Apart(HandleBlock(h), rest)
    ensures HandlesApart(hs[h := hd], rest)
  {
    assert forall k :: k in hs ==> Apart(HandleBlock(k), HandleBlock(h));
  }

  /** A spare block becomes a buffer's own. */
  lemma BlockOwned(hs: Headers, rest: Block, freeH: seq<nat>, free: seq<Block>, taken: set<Block>, h: nat, hd: Header)
    requires HeapOk(hs, rest, freeH, free, taken) && IsBuffer(hs, h) && !Owns(hs, h)
    requires hd.magic == SoundBuffer && hd.refs > 0
    requires hd.owned != 0 ==> Spare(hs, rest, free, taken, Block(hd.owned, hd.ownedBytes))
    ensures HeapOk(hs[h := hd], rest, freeH, free, taken)
  {
    var hs' := hs[h := hd];
    forall k | Owns(hs', k)
      ensures k == h || (Owns(hs, k) && OwnedBlock(hs', k) == OwnedBlock(hs, k))
    {}
  }

  /** The block a free-list slot held, once its place is filled from the end. */
  lemma BlockTaken(hs: Headers, rest: Block, freeH: seq<nat>, free: seq<Block>, taken: set<Block>, i: nat)
    requires HeapOk(hs, rest, freeH, free, taken) && i < |free|
    ensures var n := |free| - 1;
            var free' := free[i := free[n]][..n];
            HeapOk(hs, rest, freeH, free', taken) && Spare(hs, rest, free', taken, free[i])
  {
    var n := |free| - 1;
    var free' := free[i := free[n]][..n];
    assert forall k :: 0 <= k < n ==> free'[k] == if k == i then free[n] else free[k];
  }

  /** A live buffer's header changes, but not what it owns. */
  lemma HeaderUpdated(
    hs: Headers, rest: Block, freeH: seq<nat>, free: seq<Block>, taken: set<Block>, h: nat, hd: Header)
    requires HeapOk(hs, rest, freeH, free, taken) && IsBuffer(hs, h) && hd.refs > 0
    requires hd.magic == SoundBuffer && hd.owned == hs[h].owned && hd.ownedBytes == hs[h].ownedBytes
    ensures HeapOk(hs[h := hd], rest, freeH, free, taken)
  {
    var hs' := hs[h := hd];
    assert forall k :: Owns(hs', k) ==> Owns(hs, k) && OwnedBlock(hs', k) == OwnedBlock(hs, k);
  }

  /** A buffer that is no longer live gives up its handle and its block. */
  lemma BufferDropped(hs: Headers, rest: Block, freeH: seq<nat>, free: seq<Block>, taken: set<Block>, h: nat)
    requires HeapOk(hs, rest, freeH, free, taken) && IsBuffer(hs, h)
    ensures var hs' := hs[h := hs[h].(magic := Nothing, refs := 0)];
            && HeapOk(hs', rest, freeH, free, taken)
            && (Owns(hs, h) ==> Spare(hs', rest, free, taken, OwnedBlock(hs, h)))
            && h !in freeH
  {
    var hs' := hs[h := hs[h].(magic := Nothing, refs := 0)];
    assert forall k :: Owns(hs', k) ==> k != h && Owns(hs, k) && OwnedBlock(hs', k) == OwnedBlock(hs, k);
    assert forall k :: IsBuffer(hs', k) ==> k != h && IsBuffer(hs, k);
  }

  /** A block just given out is spare, and so is the front of it. */
  lemma BlockGranted(
    hs: Headers, rest: Block, freeH: seq<nat>, free: seq<Block>, taken: set<Block>, b: Block, len: nat)
    requires HeapOk(hs, rest, freeH, free, taken) && NewBlock(b, taken) && 0 < len <= b.len
    ensures HeapOk(hs, rest, freeH, free, taken + {b})
    ensures Spare(hs, rest, free, taken + {b}, Block(b.va, len))
  {
    PoolAdded(hs, Block(0, 0), freeH, free, taken, b) by {
      assert HeapOk(hs, Block(0, 0), freeH, free, taken);
    }
    TakenGrows(hs, rest, freeH, free, taken, b);
    assert b in taken + {b} && Within(Block(b.va, len), b);
    if rest.len > 0 {
      NewIsApart(b, taken, rest);
    }
  }

  lemma BlockFreed(hs: Headers, rest: Block, freeH: seq<nat>, free: seq<Block>, taken: set<Block>, b: Block)
    requires HeapOk(hs, rest, freeH, free, taken) && Spare(hs, rest, free, taken, b) && |free| < MAX_FREE_BLOCKS
    ensures HeapOk(hs, rest, freeH, free + [b], taken)
  {
    assert forall i :: 0 <= i < |free| ==> Apart(free[i], b);
  }

  /** The last handle on the free list comes off it. */
  lemma HandlePopped(hs: Headers, rest: Block, freeH: seq<nat>, free: seq<Block>, taken: set<Block>)
    requires HeapOk(hs, rest, freeH, free, taken) && freeH != []
    ensures var n := |freeH| - 1;
            && HeapOk(hs, rest, freeH[..n], free, taken)
            && freeH[n] in hs && freeH[n] > 0 && hs[freeH[n]].magic == Nothing && freeH[n] !in freeH[..n]
  {}

  /** A handle that is not live goes onto it. */
  lemma HandlePushed(hs: Headers, rest: Block, freeH: seq<nat>, free: seq<Block>, taken: set<Block>, h: nat)
    requires HeapOk(hs, rest, freeH, free, taken) && |freeH| < MAX_FREE_HANDLES
    requires h in hs && hs[h].magic == Nothing && h !in freeH
    ensures HeapOk(hs, rest, freeH + [h], free, taken)
  {}

  /** Carving the next handle of the pool, and making it live. */
  lemma HandleCarved(hs: Headers, rest: Block, freeH: seq<nat>, free: seq<Block>, taken: set<Block>, hd: Header)
    requires HeapOk(hs, rest, freeH, free, taken) && rest.len >= H_BYTES && OwnsNothing(hd)
    ensures rest.va > 0 && rest.va !in hs
    ensures HeapOk(hs[rest.va := hd], Block(rest.va + H_BYTES, rest.len - H_BYTES), freeH, free, taken)
  {
    var rest' := Block(rest.va + H_BYTES, rest.len - H_BYTES);
    var blank := Header(Nothing, 0, 0, 0, 0, 0);
    RestCut(hs, rest, freeH, free, taken);
    HandleAdded(hs, rest', freeH, free, taken, rest.va, blank);
    var hs' := hs[rest.va := blank];
    assert rest.va !in freeH;
    HeaderSet(hs', rest', freeH, free, taken, rest.va, hd);
    assert hs'[rest.va := hd] == hs[rest.va := hd];
  }

  // ------------------------------------------------------------ the lift

  /** What a live buffer amounts to for its holder. */
  datatype Buffer = Buffer(refs: nat, data: nat, dataBytes: nat, owned: nat, ownedBytes: nat)

  function BufferOf(hd: Header): Buffer {
    Buffer(hd.refs, hd.data, hd.dataBytes, hd.owned, hd.ownedBytes)
  }

  function LiveOf(hs: Headers): map<nat, Buffer> {
    map h | h in hs && hs[h].magic == SoundBuffer :: BufferOf(hs[h])
  }

  lemma LiveUpdated(hs: Headers, h: nat, hd: Header)
    ensures LiveOf(hs[h := hd]) ==
            if hd.magic == SoundBuffer then LiveOf(hs)[h := BufferOf(hd)] else LiveOf(hs) - {h}
  {}

  /** A new live buffer with one reference and, if its memory could be had, its own data. */
  predicate Created(was: map<nat, Buffer>, now: map<nat, Buffer>, h: nat, bytes: nat) {
    && h !in was && h in now && now == was[h := now[h]]
    && var b := now[h];
       && b.refs == 1 && b.data == b.owned && b.dataBytes == b.ownedBytes
       && b.ownedBytes == (if b.owned != 0 then bytes else 0) && (bytes == 0 ==> b.owned == 0)
  }

  lemma CreatedLive(was: Headers, mid: Headers, hs: Headers, h: nat, bytes: nat)
    requires h in mid && mid == was[h := mid[h]] && h in hs && hs == mid[h := hs[h]]
    requires h in was ==> was[h].magic == Nothing
    requires var hd := hs[h];
             && hd.magic == SoundBuffer && hd.refs == 1 && hd.data == hd.owned && hd.dataBytes == hd.ownedBytes
             && hd.ownedBytes == (if hd.owned != 0 then bytes else 0) && (bytes == 0 ==> hd.owned == 0)
    ensures Created(LiveOf(was), LiveOf(hs), h, bytes)
  {
    assert hs == was[h := hs[h]];
    LiveUpdated(was, h, hs[h]);
  }

  /** Two answers of the guest's allocator, each 0 or a block apart from everything before. */
  ghost predicate BothNew(taken: set<Block>, a: Block, b: Block) {
    && (a.va != 0 ==> NewBlock(a, taken))
    && (b.va != 0 ==> NewBlock(b, taken) && (a.va != 0 ==> Apart(b, a)))
  }

  lemma NewBlockLater(taken: set<Block>, a: Block, b: Block)
    requires BothNew(taken, a, b)
    ensures a.va != 0 && b.va != 0 ==> NewBlock(b, taken + {a})
  {}

  class Lift {
    var pool: nat
    var poolLeft: nat
    var freeH: seq<nat>
    var free: seq<Block>
    var headers: Headers

    /** Everything the guest's allocator has given out. */
    ghost var taken: set<Block>

    ghost predicate Valid()
      reads this
    {
      HeapOk(headers, Block(pool, poolLeft * H_BYTES), freeH, free, taken)
    }

    /** The live buffers. */
    ghost function Live(): map<nat, Buffer>
      reads this
    {
      LiveOf(headers)
    }

    constructor ()
      ensures Valid() && Live() == map[] && taken == {} && freeH == [] && free == []
    {
      pool, poolLeft, freeH, free, headers, taken := 0, 0, [], [], map[], {};
    }

    /** A new pool when the last is used up. */
    method Refill(grant: nat)
      requires Valid() && poolLeft == 0
      requires grant != 0 ==> NewBlock(Block(grant, POOL_BYTES), taken)
      modifies this`pool, this`poolLeft, this`taken
      ensures Valid() && pool == grant && poolLeft == if grant != 0 then POOL_BYTES / H_BYTES else 0
      ensures taken == if grant != 0 then old(taken) + {Block(grant, POOL_BYTES)} else old(taken)
    {
      ghost var used := Block(pool, 0);
      pool := grant;
      poolLeft := if grant != 0 then POOL_BYTES / H_BYTES else 0;
      if grant != 0 {
        PoolAdded(headers, used, freeH, free, taken, Block(grant, POOL_BYTES));
        taken := taken + {Block(grant, POOL_BYTES)};
      }
    }

    /** A freed handle, last in first out. */
    method ReuseHandle(hd: Header) returns (h: nat)
      requires Valid() && freeH != [] && OwnsNothing(hd)
      modifies this`freeH, this`headers
      ensures Valid() && h == old(freeH[|freeH| - 1]) && h > 0
      ensures h in old(headers) && old(headers)[h].magic == Nothing
      ensures headers == old(headers)[h := hd]
    {
      HandlePopped(headers, Block(pool, poolLeft * H_BYTES), freeH, free, taken);
      h := freeH[|freeH| - 1];
      freeH := freeH[..|freeH| - 1];
      HeaderSet(headers, Block(pool, poolLeft * H_BYTES), freeH, free, taken, h, hd);
      headers := headers[h := hd];
    }

    /** The next handle of the pool. */
    method CarveHandle(hd: Header) returns (h: nat)
      requires Valid() && poolLeft > 0 && OwnsNothing(hd)
      modifies this`pool, this`poolLeft, this`headers
      ensures Valid() && h == old(pool) && h > 0 && h !in old(headers) && headers == old(headers)[h := hd]
    {
      ghost var rest := Block(pool, poolLeft * H_BYTES);
      HandleCarved(headers, rest, freeH, free, taken, hd);
      assert Block(rest.va + H_BYTES, rest.len - H_BYTES) == Block(pool + H_BYTES, (poolLeft - 1) * H_BYTES);
      h := pool;
      pool := pool + H_BYTES;
      poolLeft := poolLeft - 1;
      headers := headers[h := hd];
    }

    /** The handle the next call gets: the last one freed, the next of the pool, or the first
        of a new one. */
    function NextHandle(grant: nat): nat
      reads this
    {
      if freeH != [] then freeH[|freeH| - 1] else if poolLeft > 0 then pool else grant
    }

    /** handle_alloc: a freed handle if there is one, or the next of the pool. `grant` is the
        guest allocator's answer for a new pool, when one is needed, and `later` a block it
        has yet to give out. */
    method HandleAlloc(magic: Magic, grant: nat, ghost later: Block) returns (h: nat)
      requires Valid() && magic != Nothing
      requires BothNew(taken, Block(grant, POOL_BYTES), later)
      modifies this`pool, this`poolLeft, this`freeH, this`headers, this`taken
      ensures Valid() && (later.va != 0 ==> NewBlock(later, taken))
      ensures h == old(NextHandle(grant))
      ensures h == 0 <==> old(freeH) == [] && old(poolLeft) == 0 && grant == 0
      ensures h == 0 ==> headers == old(headers)
      ensures taken <= old(taken) + {Block(grant, POOL_BYTES)}
      ensures h != 0 ==>
                && (h in old(headers) ==> old(headers)[h].magic == Nothing)
                && h in headers && headers == old(headers)[h := headers[h]] && IsNew(headers[h], magic)
    {
      var hd := Header(magic, 1, 0, 0, 0, 0);
      if freeH != [] {
        h := ReuseHandle(hd);
        return;
      }
      if poolLeft == 0 {
        NewBlockLater(taken, Block(grant, POOL_BYTES), later);
        Refill(grant);
      }
      if poolLeft == 0 {
        return 0;
      }
      h := CarveHandle(hd);
    }

    /** owned_alloc: a freed buffer of exactly this size if there is one, or a new one.
        `grant` is the guest allocator's answer, when it is asked. What it gives covers the
        buffer unless the size is one whose rounding wraps. */
    method OwnedAlloc(bytes: nat, grant: nat) returns (va: nat)
      requires Valid() && 0 < bytes < WORD
      requires grant != 0 ==> NewBlock(Block(grant, Rounded(bytes)), taken)
      modifies this`free, this`taken
      ensures bytes <= MAX_BUFFER || grant == 0 ==>
                && Valid()
                && (va != 0 ==> Spare(headers, Block(pool, poolLeft * H_BYTES), free, taken, Block(va, bytes)))
      ensures va == 0 <==> grant == 0 && forall i :: 0 <= i < |old(free)| ==> old(free)[i].len != bytes
      ensures if exists i :: 0 <= i < |old(free)| && old(free)[i].len == bytes
              then Block(va, bytes) in old(free) && |free| == |old(free)| - 1 && taken == old(taken)
              else va == grant && free == old(free)
      ensures taken <= old(taken) + {Block(grant, Rounded(bytes))}
    {
      var i := FindFree(bytes);
      if i < |free| {
        va := TakeFree(i);
      } else {
        va := grant;
        if grant != 0 {
          Accept(grant, bytes);
        }
      }
    }

    /** The first free block of exactly this size, or past the end. */
    method FindFree(bytes: nat) returns (i: nat)
      ensures i <= |free| && (i < |free| ==> free[i].len == bytes)
      ensures forall k :: 0 <= k < i ==> free[k].len != bytes
    {
      i := 0;
      while i < |free| && free[i].len != bytes
        invariant i <= |free| && forall k :: 0 <= k < i ==> free[k].len != bytes
      {
        i := i + 1;
      }
    }

    /** That block leaves the list, and the last takes its place. */
    method TakeFree(i: nat) returns (va: nat)
      requires Valid() && i < |free|
      modifies this`free
      ensures Valid() && va > 0 && Block(va, old(free)[i].len) == old(free)[i] && |free| == |old(free)| - 1
      ensures Spare(headers, Block(pool, poolLeft * H_BYTES), free, taken, old(free)[i])
    {
      BlockTaken(headers, Block(pool, poolLeft * H_BYTES), freeH, free, taken, i);
      va := free[i].va;
      free := free[i := free[|free| - 1]][..|free| - 1];
    }

    /** The guest's allocator has answered a request for a buffer of this size. */
    ghost method Accept(grant: nat, bytes: nat)
      requires Valid() && 0 < bytes < WORD && NewBlock(Block(grant, Rounded(bytes)), taken)
      modifies this`taken
      ensures taken == old(taken) + {Block(grant, Rounded(bytes))}
      ensures bytes <= MAX_BUFFER ==>
                && Valid()
                && Spare(headers, Block(pool, poolLeft * H_BYTES), free, taken, Block(grant, bytes))
    {
      var given := Block(grant, Rounded(bytes));
      RoundedCovers(bytes);
      if bytes <= MAX_BUFFER {
        BlockGranted(headers, Block(pool, poolLeft * H_BYTES), freeH, free, taken, given, bytes);
      }
      taken := taken + {given};
    }

    /** owned_free: a full list drops the block. */
    method OwnedFree(b: Block)
      requires Valid() && Spare(headers, Block(pool, poolLeft * H_BYTES), free, taken, b)
      modifies this`free
      ensures Valid() && free == if |old(free)| < MAX_FREE_BLOCKS then old(free) + [b] else old(free)
    {
      if |free| < MAX_FREE_BLOCKS {
        BlockFreed(headers, Block(pool, poolLeft * H_BYTES), freeH, free, taken, b);
        free := free + [b];
      }
    }

    // ---------------------------------------------------------- IDirectSoundBuffer

    /** A new buffer's own memory. One whose memory cannot be had is left with none. */
    method Outfit(h: nat, bytes: nat, grant: nat)
      requires Valid() && bytes < WORD
      requires h in headers && IsNew(headers[h], SoundBuffer)
      requires grant != 0 ==> NewBlock(Block(grant, Rounded(bytes)), taken)
      modifies this`headers, this`free, this`taken
      ensures bytes <= MAX_BUFFER || grant == 0 ==> Valid()
      ensures h in headers && headers == old(headers)[h := headers[h]]
      ensures var hd := headers[h];
              && hd.magic == SoundBuffer && hd.refs == 1 && hd.data == hd.owned && hd.dataBytes == hd.ownedBytes
              && hd.ownedBytes == (if hd.owned != 0 then bytes else 0) && (bytes == 0 ==> hd.owned == 0)
      ensures bytes != 0 && (forall i :: 0 <= i < |old(free)| ==> old(free)[i].len != bytes) ==>
                headers[h].owned == grant
      ensures bytes == 0 ==> free == old(free)
      ensures taken <= old(taken) + {Block(grant, Rounded(bytes))}
    {
      var owned := 0;
      if bytes != 0 {
        owned := OwnedAlloc(bytes, grant);
      }
      var size := if owned != 0 then bytes else 0;
      var hd := Header(SoundBuffer, 1, owned, owned, size, size);
      if bytes <= MAX_BUFFER || grant == 0 {
        BlockOwned(headers, Block(pool, poolLeft * H_BYTES), freeH, free, taken, h, hd);
      }
      headers := headers[h := hd];
    }

    /** CreateSoundBuffer: 0 when there is no handle to be had. `grantPool` and `grantData`
        are the guest allocator's answers, in that order. Everything stays disjoint unless the
        size is one whose rounding wraps and the allocator answers it. */
    method CreateSoundBuffer(bytes: nat, grantPool: nat, grantData: nat) returns (h: nat)
      requires Valid() && bytes < WORD
      requires BothNew(taken, Block(grantPool, POOL_BYTES), Block(grantData, Rounded(bytes)))
      modifies this
      ensures bytes <= MAX_BUFFER || grantData == 0 ==> Valid()
      ensures h == old(NextHandle(grantPool))
      ensures h == 0 <==> old(freeH) == [] && old(poolLeft) == 0 && grantPool == 0
      ensures h == 0 ==> Live() == old(Live())
      ensures h != 0 ==> Created(old(Live()), Live(), h, bytes)
      ensures h != 0 && bytes != 0 && (forall i :: 0 <= i < |old(free)| ==> old(free)[i].len != bytes) ==>
                Live()[h].owned == grantData
      ensures bytes == 0 ==> free == old(free)
      ensures taken <= old(taken) + {Block(grantPool, POOL_BYTES), Block(grantData, Rounded(bytes))}
    {
      ghost var was := headers;
      h := HandleAlloc(SoundBuffer, grantPool, Block(grantData, Rounded(bytes)));
      if h != 0 {
        ghost var mid := headers;
        Outfit(h, bytes, grantData);
        CreatedLive(was, mid, headers, h, bytes);
      }
    }

    /** AddRef: refused for anything that is not a live buffer. */
    method AddRef(h: nat) returns (ok: bool, refs: nat)
      requires Valid()
      modifies this`headers
      ensures Valid() && ok == (h in old(Live()))
      ensures Live() == if ok then old(Live())[h := old(Live())[h].(refs := refs)] else old(Live())
      ensures ok ==> refs == old(Live())[h].refs + 1
    {
      if h !in headers || headers[h].magic != SoundBuffer {
        return false, 0;
      }
      refs := headers[h].refs + 1;
      ok := true;
      var hd := headers[h].(refs := refs);
      HeaderUpdated(headers, Block(pool, poolLeft * H_BYTES), freeH, free, taken, h, hd);
      LiveUpdated(headers, h, hd);
      headers := headers[h := hd];
    }

    /** Release: the buffer is gone exactly when its count reaches 0, and another Release of
        the same handle is then refused. */
    method Release(h: nat) returns (ok: bool, refs: nat)
      requires Valid()
      modifies this`headers, this`free, this`freeH
      ensures Valid() && ok == (h in old(Live()))
      ensures ok ==> refs == old(Live())[h].refs - 1
      ensures Live() == if !ok then old(Live())
                        else if refs == 0 then old(Live()) - {h}
                        else old(Live())[h := old(Live())[h].(refs := refs)]
    {
      if h !in headers || headers[h].magic != SoundBuffer {
        return false, 0;
      }
      ok := true;
      refs := headers[h].refs - 1;
      if refs > 0 {
        var hd := headers[h].(refs := refs);
        HeaderUpdated(headers, Block(pool, poolLeft * H_BYTES), freeH, free, taken, h, hd);
        LiveUpdated(headers, h, hd);
        headers := headers[h := hd];
      } else {
        Retire(h);
      }
    }

    /** The last reference is gone: the buffer's own memory and its handle go to the free
        lists, or nowhere when those are full. */
    method Retire(h: nat)
      requires Valid() && h in Live()
      modifies this`headers, this`free, this`freeH
      ensures Valid() && h !in Live()
      ensures Live() == (old(Live()) - {h})
      ensures freeH == (if |old(freeH)| < MAX_FREE_HANDLES then old(freeH) + [h] else old(freeH))
      ensures var b := old(Live())[h];
              free == (if b.owned != 0 && |old(free)| < MAX_FREE_BLOCKS
                       then old(free) + [Block(b.owned, b.ownedBytes)] else old(free))
    {
      var owned := Block(headers[h].owned, headers[h].ownedBytes);
      BufferDropped(headers, Block(pool, poolLeft * H_BYTES), freeH, free, taken, h);
      LiveUpdated(headers, h, headers[h].(magic := Nothing, refs := 0));
      headers := headers[h := headers[h].(magic := Nothing, refs := 0)];
      if owned.va != 0 {
        OwnedFree(owned);
      }
      if |freeH| < MAX_FREE_HANDLES {
        HandlePushed(headers, Block(pool, poolLeft * H_BYTES), freeH, free, taken, h);
        freeH := freeH + [h];
      }
    }

    /** SetBufferData: what is mixed changes, what is owned does not. */
    method SetBufferData(h: nat, data: nat, bytes: nat) returns (ok: bool)
      requires Valid()
      modifies this`headers
      ensures Valid() && ok == (h in old(Live()))
      ensures Live() == if ok then old(Live())[h := old(Live())[h].(data := data, dataBytes := bytes)]
                        else old(Live())
    {
      if h !in headers || headers[h].magic != SoundBuffer {
        return false;
      }
      ok := true;
      var hd := headers[h].(data := data, dataBytes := bytes);
      HeaderUpdated(headers, Block(pool, poolLeft * H_BYTES), freeH, free, taken, h, hd);
      LiveUpdated(headers, h, hd);
      headers := headers[h := hd];
    }
  }

  /** Safety, in every state any sequence of calls can reach: live handles are 64 bytes
      apart; the memory of live buffers is disjoint from each other's and from every handle,
      its own included; free blocks are disjoint from each other and from all of those; and
      nothing on a free list is live. */
  lemma LiveIsDisjoint(lift: Lift)
    requires lift.Valid()
    ensures var live, free := lift.Live(), lift.free;
            && (forall h :: h in live ==> h !in lift.freeH)
            && (forall h, k :: h in live && k in live && h != k ==> Apart(HandleBlock(h), HandleBlock(k)))
            && (forall h, k :: h in live && k in live && live[h].owned != 0 ==>
                  Apart(OwnMemory(live[h]), HandleBlock(k)))
            && (forall h, k :: h in live && k in live && h != k && live[h].owned != 0 && live[k].owned != 0 ==>
                  Apart(OwnMemory(live[h]), OwnMemory(live[k])))
            && (forall i, j :: 0 <= i < j < |free| ==> Apart(free[i], free[j]))
            && (forall i, h :: 0 <= i < |free| && h in live ==> Apart(free[i], HandleBlock(h)))
            && (forall i, h :: 0 <= i < |free| && h in live && live[h].owned != 0 ==>
                  Apart(free[i], OwnMemory(live[h])))
  {
    var hs, live := lift.headers, lift.Live();
    assert forall h :: h in live ==> IsBuffer(hs, h) && live[h] == BufferOf(hs[h]);
    assert forall h :: h in live && live[h].owned != 0 ==> Owns(hs, h) && OwnMemory(live[h]) == OwnedBlock(hs, h);
  }

  /** Beyond `MAX_BUFFER` it does fail: the request for such a buffer is for no bytes, and what
      the buffer then claims can contain another live buffer's handle. */
  method WrappedSizeOverlaps(bytes: nat) returns (lift: Lift, h: nat, k: nat)
    requires MAX_BUFFER < bytes < WORD
    ensures h in lift.Live() && k in lift.Live() && h != k && lift.Live()[k].owned != 0
    ensures !Apart(OwnMemory(lift.Live()[k]), HandleBlock(h))
  {
    lift := new Lift();
    h := lift.CreateSoundBuffer(0, 0x1_0000, 0);
    assert h == 0x1_0000;
    k := lift.CreateSoundBuffer(bytes, 0x2_0000, 0x1000);
  }

  function OwnMemory(b: Buffer): Block {
    Block(b.owned, b.ownedBytes)
  }

  // ------------------------------------------------------------ Lock

  /** The two stretches of a circular buffer that a lock hands out. */
  datatype Stretch = Stretch(start1: nat, len1: nat, start2: nat, len2: nat)

  /** Lock, past its write-cursor flag: `size` bytes at `base`. */
  function LockRegion(base: nat, size: nat, offset: nat, bytes: nat, entire: bool): Stretch {
    if size == 0 || base == 0 then Stretch(0, 0, 0, 0)
    else
      var off := (if entire then 0 else offset) % size;
      var n := if entire || bytes > size then size else bytes;
      var n1 := if n < size - off then n else size - off;
      Stretch(base + off, n1, if n - n1 != 0 then base else 0, n - n1)
  }

  /** The `i`-th byte of the stretches, in order. */
  function ByteAt(s: Stretch, i: nat): nat
    requires i < s.len1 + s.len2
  {
    if i < s.len1 then s.start1 + i else s.start2 + (i - s.len1)
  }

  /** A lock covers exactly the bytes asked for, up to the whole buffer, in order from the
      offset, wrapping at the end; every one is inside the buffer. */
  lemma LockIsCircular(base: nat, size: nat, offset: nat, bytes: nat, entire: bool)
    requires base > 0 && size > 0
    ensures var s := LockRegion(base, size, offset, bytes, entire);
            var off := if entire then 0 else offset % size;
            && s.len1 + s.len2 == (if entire || bytes > size then size else bytes)
            && (forall i :: 0 <= i < s.len1 + s.len2 ==>
                  ByteAt(s, i) == base + (if off + i < size then off + i else off + i - size))
            && (s.len2 > 0 ==> s.start2 == base && s.start1 + s.len1 == base + size)
            && off < size
  {
    assert entire ==> 0 % size == 0;
  }

  /** A buffer with no size or no memory gives nothing at all. */
  lemma LockOfNothing(base: nat, size: nat, offset: nat, bytes: nat, entire: bool)
    ensures var s := LockRegion(base, size, offset, bytes, entire);
            base == 0 || size == 0 ==> s.start1 == s.len1 == s.start2 == s.len2 == 0
    ensures var s := LockRegion(base, size, offset, bytes, entire);
            s.len1 + s.len2 == 0 <==> base == 0 || size == 0 || (bytes == 0 && !entire)
  {}

  /** ... and no byte is given twice. */
  lemma LockGivesOnce(base: nat, size: nat, offset: nat, bytes: nat, entire: bool, i: nat, j: nat)
    requires base > 0 && size > 0
    requires var s := LockRegion(base, size, offset, bytes, entire); i < j < s.len1 + s.len2
    ensures var s := LockRegion(base, size, offset, bytes, entire);
            ByteAt(s, i) != ByteAt(s, j) && base <= ByteAt(s, i) < base + size
  {
    LockIsCircular(base, size, offset, bytes, entire);
  }
}
