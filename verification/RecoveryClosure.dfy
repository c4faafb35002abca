/** Recovery of mid-function entries: `EntryRecovery` translates one entry and closes over
    the entries its body references, claiming each name before it recurses. References may
    form cycles. Decoding and C generation are abstracted to a fixed `Generator`. */
module RecoveryClosure {

  const ADDRESSES: int := 0x1_0000_0000

  /** A guest address; the name of an entry is `sub_` and its address. */
  type Address = x: int | 0 <= x < ADDRESSES

  /** One detected function. */
  datatype Function = Function(start: Address, end: Address)

  /** Why an entry has no body. */
  datatype Why =
    | PastTheLastFunction
    | NotAnInstructionBoundary
    | IncompleteTranslation
    | NoReturnPath
    | JumpsOutside(target: Address)
    | Calls(callee: Address, because: Why)

  /** What the generator makes of an address, up to an end. */
  datatype Code = Code(complete: bool, hasReturn: bool, dangling: seq<Address>, refs: seq<Address>)

  /** The fixed inputs of a run: detected functions sorted by start, where instructions
      begin in each, the generator, and the names the header declares. */
  datatype Generator = Generator(
    functions: seq<Function>,
    boundary: (Address, Address) -> bool,
    generate: (Address, Address) -> Code,
    declared: Address -> bool)

  /** A body, of which only its references matter, or the reason there is none. */
  datatype Outcome = Body(refs: seq<Address>) | Refused(why: Why)

  /** `extra[name]`: claimed while its translation is under way, then its body. */
  datatype Slot = Claimed | Written(refs: seq<Address>)

  type Extra = map<Address, Slot>

  // ------------------------------------------------------------ one entry by itself

  /** bisect_right over the starts: how many functions start at or before the address. */
  function Bisect(fs: seq<Function>, a: Address): (n: nat)
    ensures n <= |fs|
  {
    if fs == [] then 0
    else if fs[|fs| - 1].start <= a then |fs|
    else Bisect(fs[..|fs| - 1], a)
  }

  predicate SortedByStart(fs: seq<Function>) {
    forall i, j :: 0 <= i < j < |fs| ==> fs[i].start < fs[j].start
  }

  lemma {:induction false} BisectSplits(fs: seq<Function>, a: Address)
    requires SortedByStart(fs)
    ensures forall i :: 0 <= i < |fs| ==> (fs[i].start <= a <==> i < Bisect(fs, a))
  {
    if fs != [] && fs[|fs| - 1].start > a {
      var rest := fs[..|fs| - 1];
      BisectSplits(rest, a);
      forall i | 0 <= i < |fs|
        ensures fs[i].start <= a <==> i < Bisect(fs, a)
      {
        if i < |rest| {
          assert fs[i] == rest[i];
        }
      }
    }
  }

  datatype Bounds = Inside(owner: Address, end: Address) | Gap(end: Address) | Past

  /** `bounds_of`. */
  function BoundsOf(fs: seq<Function>, a: Address): Bounds {
    var n := Bisect(fs, a);
    if n > 0 && fs[n - 1].start < a < fs[n - 1].end then Inside(fs[n - 1].start, fs[n - 1].end)
    else if n >= |fs| then Past
    else Gap(fs[n].start)
  }

  /** Is this the last function that starts at or before the address? */
  predicate LastBefore(fs: seq<Function>, i: nat, a: Address) {
    i < |fs| && fs[i].start <= a && forall j :: 0 <= j < |fs| && fs[j].start <= a ==> j <= i
  }

  predicate Apart(fs: seq<Function>) {
    forall i :: 0 <= i < |fs| - 1 ==> fs[i].end <= fs[i + 1].start
  }

  /** The bound is the end of the last function that starts at or before the address, if
      that one properly contains it, whatever else does; or else the next start after it,
      with nothing starting between; or none past the last start. Only when functions do not
      overlap is that the one function, if any, that properly contains the address. */
  lemma BoundsMeaning(fs: seq<Function>, a: Address)
    requires SortedByStart(fs)
    ensures BoundsOf(fs, a).Inside? <==> exists i: nat :: LastBefore(fs, i, a) && fs[i].start < a < fs[i].end
    ensures match BoundsOf(fs, a)
            case Inside(owner, end) =>
              owner < a < end && exists i: nat :: LastBefore(fs, i, a) && fs[i] == Function(owner, end)
            case Gap(end) =>
              && a < end && (exists i :: 0 <= i < |fs| && fs[i].start == end)
              && forall i :: 0 <= i < |fs| ==> fs[i].start <= a || end <= fs[i].start
            case Past => forall i :: 0 <= i < |fs| ==> fs[i].start <= a
    ensures Apart(fs) ==>
              (BoundsOf(fs, a).Inside? <==> exists i :: 0 <= i < |fs| && fs[i].start < a < fs[i].end)
  {
    BisectSplits(fs, a);
    var n := Bisect(fs, a);
    if n > 0 {
      assert LastBefore(fs, n - 1, a);
    }
    if Apart(fs) {
      forall i | 0 <= i < |fs| && fs[i].start < a < fs[i].end
        ensures BoundsOf(fs, a).Inside?
      {
        OnlyTheLastContains(fs, a, i);
      }
      assert BoundsOf(fs, a).Inside? ==> fs[n - 1].start < a < fs[n - 1].end;
    }
  }

  lemma OnlyTheLastContains(fs: seq<Function>, a: Address, i: nat)
    requires SortedByStart(fs) && Apart(fs) && i < |fs| && fs[i].start < a < fs[i].end
    ensures Bisect(fs, a) == i + 1
  {
    BisectSplits(fs, a);
    if i + 1 < |fs| {
      assert fs[i].end <= fs[i + 1].start;
    }
  }

  /** `translate` up to its references: the refusals, in the order they are tried. */
  function Attempt(g: Generator, a: Address): Outcome {
    var b := BoundsOf(g.functions, a);
    if b.Past? then Refused(PastTheLastFunction)
    else if b.Inside? && !g.boundary(b.owner, a) then Refused(NotAnInstructionBoundary)
    else
      var code := g.generate(a, b.end);
      if !code.complete then Refused(IncompleteTranslation)
      else if !code.hasReturn then Refused(NoReturnPath)
      else if code.dangling != [] then Refused(JumpsOutside(code.dangling[0]))
      else Body(code.refs)
  }

  // ------------------------------------------------------------ what it accepts and refuses

  /** Is the address properly inside function `i`, the last one that starts at or before it? */
  predicate InsideOf(fs: seq<Function>, i: nat, a: Address) {
    LastBefore(fs, i, a) && fs[i].start < a < fs[i].end
  }

  ghost predicate InsideOne(fs: seq<Function>, a: Address) {
    exists i: nat :: InsideOf(fs, i, a)
  }

  /** Does translation of the address stop at `end`: the end of the function it is inside, or
      else the next start, with nothing starting between? */
  ghost predicate StopsAt(fs: seq<Function>, a: Address, end: Address) {
    if InsideOne(fs, a) then exists i: nat :: InsideOf(fs, i, a) && fs[i].end == end
    else
      && a < end && (exists i :: 0 <= i < |fs| && fs[i].start == end)
      && forall i :: 0 <= i < |fs| ==> fs[i].start <= a || end <= fs[i].start
  }

  /** Is it past the last start, and not inside that function either? */
  ghost predicate PastAll(fs: seq<Function>, a: Address) {
    !InsideOne(fs, a) && forall i :: 0 <= i < |fs| ==> fs[i].start <= a
  }

  /** Is it inside a function, but between two of its instructions? */
  ghost predicate MidInstruction(g: Generator, a: Address) {
    exists i: nat :: InsideOf(g.functions, i, a) && !g.boundary(g.functions[i].start, a)
  }

  /** Does `code` come out of translating the address up to where it stops? */
  ghost predicate CodeAt(g: Generator, a: Address, code: Code) {
    exists end: Address :: StopsAt(g.functions, a, end) && code == g.generate(a, end)
  }

  /** The entry has a body with these references: it begins an instruction, and its code is
      complete, returns, and jumps nowhere outside. */
  ghost predicate Accepted(g: Generator, a: Address, refs: seq<Address>) {
    && !MidInstruction(g, a)
    && exists code :: CodeAt(g, a, code) && code.complete && code.hasReturn && code.dangling == [] && code.refs == refs
  }

  /** The first of the five reasons that applies to the entry. */
  ghost predicate FirstReason(g: Generator, a: Address, why: Why) {
    match why
    case PastTheLastFunction => PastAll(g.functions, a)
    case NotAnInstructionBoundary => MidInstruction(g, a)
    case IncompleteTranslation => !MidInstruction(g, a) && exists code :: CodeAt(g, a, code) && !code.complete
    case NoReturnPath =>
      !MidInstruction(g, a) && exists code :: CodeAt(g, a, code) && code.complete && !code.hasReturn
    case JumpsOutside(target) =>
      && !MidInstruction(g, a)
      && exists code :: CodeAt(g, a, code) && code.complete && code.hasReturn
                        && code.dangling != [] && target == code.dangling[0]
    case Calls(_, _) => false
  }

  /** Where a translation stops is what `bounds_of` says. */
  lemma StopsMeans(fs: seq<Function>, a: Address)
    requires SortedByStart(fs)
    ensures InsideOne(fs, a) <==> BoundsOf(fs, a).Inside?
    ensures PastAll(fs, a) <==> BoundsOf(fs, a).Past?
    ensures forall end: Address :: StopsAt(fs, a, end) <==> !BoundsOf(fs, a).Past? && BoundsOf(fs, a).end == end
    ensures forall i: nat :: InsideOf(fs, i, a) ==> BoundsOf(fs, a) == Inside(fs[i].start, fs[i].end)
  {
    BisectSplits(fs, a);
    var n := Bisect(fs, a);
    forall i: nat | InsideOf(fs, i, a)
      ensures i == n - 1
    {
      assert i < n && fs[n - 1].start <= a;
    }
    if n > 0 && fs[n - 1].start < a < fs[n - 1].end {
      assert InsideOf(fs, n - 1, a);
    } else if n < |fs| {
      assert StopsAt(fs, a, fs[n].start);
    }
  }

  lemma CodeMeans(g: Generator, a: Address)
    requires SortedByStart(g.functions)
    ensures var b := BoundsOf(g.functions, a);
            && (forall code :: CodeAt(g, a, code) <==> !b.Past? && code == g.generate(a, b.end))
            && (MidInstruction(g, a) <==> b.Inside? && !g.boundary(b.owner, a))
  {
    StopsMeans(g.functions, a);
    var b := BoundsOf(g.functions, a);
    if !b.Past? {
      assert StopsAt(g.functions, a, b.end);
    }
    if b.Inside? {
      var i: nat :| InsideOf(g.functions, i, a);
    }
  }

  /** An entry gets a body with these references if and only if it is accepted, and is refused
      for this reason if and only if it is the first that applies. */
  lemma AttemptExactly(g: Generator, a: Address)
    requires SortedByStart(g.functions)
    ensures forall refs :: Attempt(g, a) == Body(refs) <==> Accepted(g, a, refs)
    ensures forall why :: Attempt(g, a) == Refused(why) <==> FirstReason(g, a, why)
  {
    CodeMeans(g, a);
    StopsMeans(g.functions, a);
    var b := BoundsOf(g.functions, a);
    if !b.Past? {
      assert CodeAt(g, a, g.generate(a, b.end));
    }
    forall why
      ensures Attempt(g, a) == Refused(why) <==> FirstReason(g, a, why)
    {
      if why.Calls? {
        assert Attempt(g, a) != Refused(why);
      }
    }
  }

  // ------------------------------------------------------------ the closure

  predicate IsAddress(x: int) {
    0 <= x < ADDRESSES
  }

  ghost function Universe(): set<Address> {
    set x: Address | 0 <= x < ADDRESSES && IsAddress(x)
  }

  /** Names nobody has claimed yet: each nested call starts with one fewer. */
  ghost function Unclaimed(extra: Extra): set<Address> {
    Universe() - extra.Keys
  }

  /** `translate`: the entry's own body, or why not, and what has become of `extra`. Every
      name in `extra` beforehand is still there, so the recursion ends on any graph. */
  function Translate(g: Generator, extra: Extra, a: Address): (r: (Outcome, Extra))
    ensures extra.Keys <= r.1.Keys
    decreases Unclaimed(extra), 1, 0
  {
    match Attempt(g, a)
    case Refused(why) => (Refused(why), extra)
    case Body(refs) => Close(g, extra, refs, refs)
  }

  /** The loop of `translate` over the references still to be covered. */
  function Close(g: Generator, extra: Extra, refs: seq<Address>, todo: seq<Address>): (r: (Outcome, Extra))
    ensures extra.Keys <= r.1.Keys
    decreases Unclaimed(extra), 0, |todo|
  {
    if todo == [] then (Body(refs), extra)
    else if g.declared(todo[0]) || todo[0] in extra then Close(g, extra, refs, todo[1..])
    else
      var c := todo[0];
      assert c in Unclaimed(extra);
      var (inner, after) := Translate(g, extra[c := Claimed], c);
      match inner
      case Refused(why) => (Refused(Calls(c, why)), after - {c})
      case Body(theirs) =>
        assert c in after;
        Close(g, after[c := Written(theirs)], refs, todo[1..])
  }

  // ------------------------------------------------------------ exactly when it succeeds

  /** A chain of references, each undeclared and outside `stop`, that ends at an entry the
      generator refuses. */
  predicate Leads(g: Generator, stop: set<Address>, path: seq<Address>) {
    path != [] &&
    match Attempt(g, path[0])
    case Refused(_) => |path| == 1
    case Body(refs) =>
      && |path| > 1 && path[1] in refs && !g.declared(path[1]) && path[1] !in stop
      && Leads(g, stop, path[1..])
  }

  /** Does the entry reach one the generator refuses? */
  ghost predicate Doomed(g: Generator, stop: set<Address>, a: Address) {
    exists path :: Leads(g, stop, path) && path[0] == a
  }

  lemma {:induction false} LeadsWider(g: Generator, stop: set<Address>, wider: set<Address>, path: seq<Address>)
    requires stop <= wider && Leads(g, wider, path)
    ensures Leads(g, stop, path)
  {
    if Attempt(g, path[0]).Body? {
      LeadsWider(g, stop, wider, path[1..]);
    }
  }

  lemma DoomedWider(g: Generator, stop: set<Address>, wider: set<Address>, a: Address)
    requires stop <= wider && Doomed(g, wider, a)
    ensures Doomed(g, stop, a)
  {
    var path :| Leads(g, wider, path) && path[0] == a;
    LeadsWider(g, stop, wider, path);
  }

  lemma DoomedBy(g: Generator, stop: set<Address>, a: Address, c: Address)
    requires Attempt(g, a).Body? && c in Attempt(g, a).refs && !g.declared(c) && c !in stop
    requires Doomed(g, stop, c)
    ensures Doomed(g, stop, a)
  {
    var path :| Leads(g, stop, path) && path[0] == c;
    assert ([a] + path)[1..] == path;
    assert Leads(g, stop, [a] + path);
  }

  /** An entry that fails reaches a refused one through names not claimed before. */
  lemma {:induction false} FailureIsDoomed(g: Generator, extra: Extra, a: Address)
    requires Translate(g, extra, a).0.Refused?
    ensures Doomed(g, extra.Keys, a)
    decreases Unclaimed(extra), 1, 0
  {
    match Attempt(g, a)
    case Refused(_) => assert Leads(g, extra.Keys, [a]);
    case Body(refs) =>
      var c := FailingReference(g, extra, refs, refs);
      DoomedBy(g, extra.Keys, a, c);
  }

  lemma {:induction false} FailingReference(g: Generator, extra: Extra, refs: seq<Address>, todo: seq<Address>)
    returns (c: Address)
    requires Close(g, extra, refs, todo).0.Refused?
    ensures c in todo && !g.declared(c) && c !in extra && Doomed(g, extra.Keys, c)
    decreases Unclaimed(extra), 0, |todo|
  {
    c := todo[0];
    if g.declared(c) || c in extra {
      c := FailingReference(g, extra, refs, todo[1..]);
    } else {
      assert c in Unclaimed(extra);
      var (inner, after) := Translate(g, extra[c := Claimed], c);
      if inner.Refused? {
        FailureIsDoomed(g, extra[c := Claimed], c);
        DoomedWider(g, extra.Keys, extra[c := Claimed].Keys, c);
      } else {
        var later := after[c := Written(inner.refs)];
        c := FailingReference(g, later, refs, todo[1..]);
        DoomedWider(g, extra.Keys, later.Keys, c);
      }
    }
  }

  /** A reference that will link: declared in the header, or with a body in `extra`. */
  predicate Covered(g: Generator, extra: Extra, refs: seq<Address>) {
    forall r :: r in refs ==> g.declared(r) || r in extra
  }

  /** What a successful call leaves: nothing it found is changed, and every name it added
      has its own body, whose references are covered. */
  predicate Grown(g: Generator, extra: Extra, after: Extra) {
    && (forall k :: k in extra ==> k in after && after[k] == extra[k])
    && (forall k :: k in after && k !in extra ==>
          && after[k].Written? && Attempt(g, k) == Body(after[k].refs)
          && Covered(g, after, after[k].refs))
  }

  lemma {:induction false} SuccessGrows(g: Generator, extra: Extra, a: Address)
    requires Translate(g, extra, a).0.Body?
    ensures var (body, after) := Translate(g, extra, a);
            body == Attempt(g, a) && Covered(g, after, body.refs) && Grown(g, extra, after)
    decreases Unclaimed(extra), 1, 0
  {
    var refs := Attempt(g, a).refs;
    CloseGrows(g, extra, refs, refs);
  }

  lemma {:induction false} CloseGrows(g: Generator, extra: Extra, refs: seq<Address>, todo: seq<Address>)
    requires Close(g, extra, refs, todo).0.Body?
    ensures var (body, after) := Close(g, extra, refs, todo);
            body == Body(refs) && Covered(g, after, todo) && Grown(g, extra, after)
    decreases Unclaimed(extra), 0, |todo|
  {
    if todo != [] {
      var c := todo[0];
      if g.declared(c) || c in extra {
        CloseGrows(g, extra, refs, todo[1..]);
      } else {
        assert c in Unclaimed(extra);
        var (inner, after) := Translate(g, extra[c := Claimed], c);
        SuccessGrows(g, extra[c := Claimed], c);
        CloseGrows(g, after[c := Written(inner.refs)], refs, todo[1..]);
      }
      var last := Close(g, extra, refs, todo).1;
      forall r | r in todo
        ensures g.declared(r) || r in last
      {
        assert r == c || r in todo[1..];
      }
    }
  }

  /** Nothing that is covered by a set of bodies leads out of it. */
  lemma {:induction false} NoWayOut(g: Generator, extra: Extra, after: Extra, path: seq<Address>)
    requires Grown(g, extra, after) && Leads(g, extra.Keys, path)
    requires Attempt(g, path[0]).Body? && Covered(g, after, Attempt(g, path[0]).refs)
    ensures false
  {
    assert path[1] in after;
    NoWayOut(g, extra, after, path[1..]);
  }

  /** `translate` succeeds if and only if no chain of undeclared, unclaimed references from
      the entry ends at one the generator refuses, whatever cycles there are; and then
      every name it added has a body whose references are all declared or in `extra`. */
  lemma TranslateSucceedsExactly(g: Generator, extra: Extra, a: Address)
    ensures Translate(g, extra, a).0.Body? <==> !Doomed(g, extra.Keys, a)
    ensures Translate(g, extra, a).0.Body? ==>
              var (body, after) := Translate(g, extra, a);
              body == Attempt(g, a) && Covered(g, after, body.refs) && Grown(g, extra, after)
  {
    var (body, after) := Translate(g, extra, a);
    if body.Refused? {
      FailureIsDoomed(g, extra, a);
    } else {
      SuccessGrows(g, extra, a);
      if Doomed(g, extra.Keys, a) {
        var path :| Leads(g, extra.Keys, path) && path[0] == a;
        NoWayOut(g, extra, after, path);
      }
    }
  }

  // ------------------------------------------------------------ exactly what it adds

  /** A chain of references, each undeclared and outside `stop`. */
  predicate Linked(g: Generator, stop: set<Address>, path: seq<Address>) {
    && |path| >= 2 && Attempt(g, path[0]).Body?
    && path[1] in Attempt(g, path[0]).refs && !g.declared(path[1]) && path[1] !in stop
    && (|path| > 2 ==> Linked(g, stop, path[1..]))
  }

  /** Do references lead from `a` to `k`, through names that are undeclared and outside `stop`? */
  ghost predicate LeadsTo(g: Generator, stop: set<Address>, a: Address, k: Address) {
    exists path :: Linked(g, stop, path) && path[0] == a && path[|path| - 1] == k
  }

  lemma {:induction false} LinkedWider(g: Generator, stop: set<Address>, wider: set<Address>, path: seq<Address>)
    requires stop <= wider && Linked(g, wider, path)
    ensures Linked(g, stop, path)
  {
    if |path| > 2 {
      LinkedWider(g, stop, wider, path[1..]);
    }
  }

  lemma LeadsToWider(g: Generator, stop: set<Address>, wider: set<Address>, a: Address, k: Address)
    requires stop <= wider && LeadsTo(g, wider, a, k)
    ensures LeadsTo(g, stop, a, k)
  {
    var path :| Linked(g, wider, path) && path[0] == a && path[|path| - 1] == k;
    LinkedWider(g, stop, wider, path);
  }

  lemma LeadsToBy(g: Generator, stop: set<Address>, a: Address, c: Address, k: Address)
    requires Attempt(g, a).Body? && c in Attempt(g, a).refs && !g.declared(c) && c !in stop
    requires k == c || LeadsTo(g, stop, c, k)
    ensures LeadsTo(g, stop, a, k)
  {
    if k == c {
      assert Linked(g, stop, [a, c]);
    } else {
      var path :| Linked(g, stop, path) && path[0] == c && path[|path| - 1] == k;
      assert ([a] + path)[1..] == path;
      assert Linked(g, stop, [a] + path);
    }
  }

  /** Whatever a call adds, successful or not, references lead to. */
  lemma {:induction false} AddsOnlyLinked(g: Generator, extra: Extra, a: Address, k: Address)
    requires k in Translate(g, extra, a).1 && k !in extra
    ensures LeadsTo(g, extra.Keys, a, k)
    decreases Unclaimed(extra), 1, 0
  {
    var refs := Attempt(g, a).refs;
    CloseAddsOnlyLinked(g, extra, a, refs, refs, k);
  }

  lemma {:induction false} CloseAddsOnlyLinked(
    g: Generator, extra: Extra, a: Address, refs: seq<Address>, todo: seq<Address>, k: Address)
    requires Attempt(g, a) == Body(refs) && forall c :: c in todo ==> c in refs
    requires k in Close(g, extra, refs, todo).1 && k !in extra
    ensures LeadsTo(g, extra.Keys, a, k)
    decreases Unclaimed(extra), 0, |todo|
  {
    var c := todo[0];
    if g.declared(c) || c in extra {
      CloseAddsOnlyLinked(g, extra, a, refs, todo[1..], k);
    } else {
      assert c in Unclaimed(extra);
      var claimed := extra[c := Claimed];
      var (inner, after) := Translate(g, claimed, c);
      if k == c {
        LeadsToBy(g, extra.Keys, a, c, k);
      } else if k in after {
        AddsOnlyLinked(g, claimed, c, k);
        LeadsToWider(g, extra.Keys, claimed.Keys, c, k);
        LeadsToBy(g, extra.Keys, a, c, k);
      } else {
        var later := after[c := Written(inner.refs)];
        CloseAddsOnlyLinked(g, later, a, refs, todo[1..], k);
        LeadsToWider(g, extra.Keys, later.Keys, a, k);
      }
    }
  }

  lemma {:induction false} LinkedIsAdded(g: Generator, extra: Extra, after: Extra, path: seq<Address>)
    requires Grown(g, extra, after) && Linked(g, extra.Keys, path)
    requires Covered(g, after, Attempt(g, path[0]).refs)
    ensures path[|path| - 1] in after
  {
    assert path[1] in after;
    if |path| > 2 {
      LinkedIsAdded(g, extra, after, path[1..]);
    }
  }

  /** What a successful call adds: exactly the names that references lead to. */
  lemma AddsExactlyLinked(g: Generator, extra: Extra, a: Address, k: Address)
    requires Translate(g, extra, a).0.Body?
    ensures k in Translate(g, extra, a).1 <==> k in extra || LeadsTo(g, extra.Keys, a, k)
  {
    var (body, after) := Translate(g, extra, a);
    SuccessGrows(g, extra, a);
    if k in after && k !in extra {
      AddsOnlyLinked(g, extra, a, k);
    }
    if LeadsTo(g, extra.Keys, a, k) {
      var path :| Linked(g, extra.Keys, path) && path[0] == a && path[|path| - 1] == k;
      LinkedIsAdded(g, extra, after, path);
    }
  }

  // ------------------------------------------------------------ whole runs, failures included

  /** Does every written name have its own body, and is every one of its references covered
      or one that reaches a refused entry? */
  ghost predicate Honest(g: Generator, extra: Extra) {
    forall k :: k in extra && extra[k].Written? ==>
      Attempt(g, k) == Body(extra[k].refs) && Accounted(g, extra, extra[k].refs)
  }

  ghost predicate Accounted(g: Generator, extra: Extra, refs: seq<Address>) {
    forall r :: r in refs ==> g.declared(r) || r in extra || Doomed(g, {}, r)
  }

  lemma {:induction false} TranslateStaysHonest(g: Generator, extra: Extra, a: Address)
    requires Honest(g, extra)
    ensures var (body, after) := Translate(g, extra, a);
            && Honest(g, after) && (body.Body? ==> body == Attempt(g, a) && Accounted(g, after, body.refs))
            && (forall k :: k in extra ==> after[k] == extra[k])
            && (forall k :: k in after && k !in extra ==> after[k].Written?)
    decreases Unclaimed(extra), 1, 0
  {
    if Attempt(g, a).Body? {
      var refs := Attempt(g, a).refs;
      CloseStaysHonest(g, extra, refs, refs);
    }
  }

  lemma {:induction false} CloseStaysHonest(g: Generator, extra: Extra, refs: seq<Address>, todo: seq<Address>)
    requires Honest(g, extra)
    ensures var (body, after) := Close(g, extra, refs, todo);
            && Honest(g, after) && (body.Body? ==> body == Body(refs) && Accounted(g, after, todo))
            && (forall k :: k in extra ==> after[k] == extra[k])
            && (forall k :: k in after && k !in extra ==> after[k].Written?)
    decreases Unclaimed(extra), 0, |todo|
  {
    if todo != [] {
      var c := todo[0];
      if g.declared(c) || c in extra {
        CloseStaysHonest(g, extra, refs, todo[1..]);
      } else {
        assert c in Unclaimed(extra);
        var (inner, after) := Translate(g, extra[c := Claimed], c);
        TranslateStaysHonest(g, extra[c := Claimed], c);
        if inner.Refused? {
          FailureIsDoomed(g, extra[c := Claimed], c);
          DoomedWider(g, {}, extra[c := Claimed].Keys, c);
          RetractStaysHonest(g, after, c);
        } else {
          WriteStaysHonest(g, after, c, inner.refs);
          CloseStaysHonest(g, after[c := Written(inner.refs)], refs, todo[1..]);
        }
      }
    }
  }

  lemma WriteStaysHonest(g: Generator, extra: Extra, c: Address, refs: seq<Address>)
    requires Honest(g, extra) && c in extra && Attempt(g, c) == Body(refs) && Accounted(g, extra, refs)
    ensures Honest(g, extra[c := Written(refs)])
  {
    var later := extra[c := Written(refs)];
    assert Accounted(g, later, refs);
    forall k | k in extra && k != c && extra[k].Written?
      ensures Accounted(g, later, extra[k].refs)
    {
      assert Accounted(g, extra, extra[k].refs);
    }
  }

  lemma RetractStaysHonest(g: Generator, extra: Extra, c: Address)
    requires Honest(g, extra) && Doomed(g, {}, c)
    ensures Honest(g, extra - {c})
  {
    forall k | k in extra && k != c && extra[k].Written?
      ensures Accounted(g, extra - {c}, extra[k].refs)
    {
      assert Accounted(g, extra, extra[k].refs);
    }
  }

  /** `translate` called from outside for one entry after another: `extra` is all that is
      kept between the calls. */
  function TranslateAll(g: Generator, extra: Extra, entries: seq<Address>): Extra {
    if entries == [] then extra
    else
      var k := |entries| - 1;
      Translate(g, TranslateAll(g, extra, entries[..k]), entries[k]).1
  }

  /** So every name a run keeps has the body that belongs at its address. */
  lemma KeptBodiesAreAccepted(g: Generator, entries: seq<Address>, k: Address)
    requires SortedByStart(g.functions) && k in TranslateAll(g, map[], entries)
    ensures var slot := TranslateAll(g, map[], entries)[k]; slot.Written? && Accepted(g, k, slot.refs)
  {
    RunStaysHonest(g, entries);
    AttemptExactly(g, k);
  }

  /** A reason is one of the five that applies to the entry, or a reference of its body that
      could not be recovered, with the reason for that. */
  ghost predicate Explains(g: Generator, a: Address, why: Why)
    decreases why
  {
    match why
    case Calls(c, because) =>
      (exists refs :: Accepted(g, a, refs) && c in refs) && !g.declared(c) && Explains(g, c, because)
    case _ => FirstReason(g, a, why)
  }

  /** What `translate` answers, told of the generator: its body, or a reason that applies. */
  lemma {:induction false} AnswerExplained(g: Generator, extra: Extra, a: Address)
    requires SortedByStart(g.functions)
    ensures match Translate(g, extra, a).0
            case Body(refs) => Accepted(g, a, refs)
            case Refused(why) => Explains(g, a, why)
    decreases Unclaimed(extra), 1, 0
  {
    AttemptExactly(g, a);
    if Attempt(g, a).Body? {
      CloseExplained(g, extra, a, Attempt(g, a).refs, Attempt(g, a).refs);
    }
  }

  lemma {:induction false} CloseExplained(
    g: Generator, extra: Extra, a: Address, refs: seq<Address>, todo: seq<Address>)
    requires SortedByStart(g.functions) && Accepted(g, a, refs) && forall c :: c in todo ==> c in refs
    ensures match Close(g, extra, refs, todo).0
            case Body(theirs) => theirs == refs
            case Refused(why) => Explains(g, a, why)
    decreases Unclaimed(extra), 0, |todo|
  {
    if todo != [] {
      var c := todo[0];
      if g.declared(c) || c in extra {
        CloseExplained(g, extra, a, refs, todo[1..]);
      } else {
        assert c in Unclaimed(extra);
        var (inner, after) := Translate(g, extra[c := Claimed], c);
        AnswerExplained(g, extra[c := Claimed], c);
        if inner.Body? {
          CloseExplained(g, after[c := Written(inner.refs)], a, refs, todo[1..]);
        } else {
          assert c in refs;
        }
      }
    }
  }

  /** Does every name in `extra` have a body whose references all link? */
  predicate Closed(g: Generator, extra: Extra) {
    forall k :: k in extra ==>
      extra[k].Written? && Attempt(g, k) == Body(extra[k].refs) && Covered(g, extra, extra[k].refs)
  }

  lemma {:induction false} RunStaysHonest(g: Generator, entries: seq<Address>)
    ensures Honest(g, TranslateAll(g, map[], entries))
    ensures forall k :: k in TranslateAll(g, map[], entries) ==> TranslateAll(g, map[], entries)[k].Written?
  {
    if entries != [] {
      var k := |entries| - 1;
      RunStaysHonest(g, entries[..k]);
      TranslateStaysHonest(g, TranslateAll(g, map[], entries[..k]), entries[k]);
    }
  }

  lemma {:induction false} ClosedLeadsNowhere(g: Generator, extra: Extra, path: seq<Address>)
    requires Closed(g, extra) && path != [] && path[0] in extra
    ensures !Leads(g, {}, path)
  {
    if |path| > 1 && Leads(g, {}, path) {
      assert path[1] in extra;
      ClosedLeadsNowhere(g, extra, path[1..]);
    }
  }

  /** After any run of successful and failed calls, everything in `extra` links if and only
      if no kept name reaches a refused entry. A failed call can keep one that does, when it
      refers back to a name that was retracted. */
  lemma RunClosedExactly(g: Generator, entries: seq<Address>)
    ensures var extra := TranslateAll(g, map[], entries);
            Closed(g, extra) <==> forall k :: k in extra ==> !Doomed(g, {}, k)
  {
    var extra := TranslateAll(g, map[], entries);
    RunStaysHonest(g, entries);
    if Closed(g, extra) {
      forall k | k in extra
        ensures !Doomed(g, {}, k)
      {
        if Doomed(g, {}, k) {
          var path :| Leads(g, {}, path) && path[0] == k;
          ClosedLeadsNowhere(g, extra, path);
        }
      }
    } else {
      var k :| k in extra && !Covered(g, extra, extra[k].refs);
      assert Accounted(g, extra, extra[k].refs);
      var r :| r in extra[k].refs && !g.declared(r) && r !in extra;
      DoomedBy(g, {}, k, r);
    }
  }

  /** If every call of a run succeeds, everything links. */
  lemma {:induction false} SuccessfulRunIsClosed(g: Generator, entries: seq<Address>)
    requires forall i :: 0 <= i < |entries| ==>
               Translate(g, TranslateAll(g, map[], entries[..i]), entries[i]).0.Body?
    ensures Closed(g, TranslateAll(g, map[], entries))
  {
    if entries != [] {
      var k := |entries| - 1;
      forall i | 0 <= i < k
        ensures Translate(g, TranslateAll(g, map[], entries[..k][..i]), entries[..k][i]).0.Body?
      {
        assert entries[..k][..i] == entries[..i];
      }
      SuccessfulRunIsClosed(g, entries[..k]);
      SuccessGrows(g, TranslateAll(g, map[], entries[..k]), entries[k]);
    }
  }

  // ------------------------------------------------------------ from the inputs alone

  /** With the names `claimed` under way, does the loop of `translate` get past `r`? */
  ghost predicate Passes(g: Generator, claimed: set<Address>, r: Address) {
    g.declared(r) || r in claimed || !Doomed(g, claimed + {r}, r)
  }

  /** Does it get as far as trying the `i`-th reference? */
  ghost predicate Tried(g: Generator, claimed: set<Address>, refs: seq<Address>, i: nat)
    requires i < |refs|
  {
    && !g.declared(refs[i]) && refs[i] !in claimed
    && forall j :: 0 <= j < i ==> Passes(g, claimed, refs[j])
  }

  /** Does a reference reach a refused entry, but only through itself and the names under
      way? Then it gets a body that will dangle. */
  ghost predicate Spared(g: Generator, claimed: set<Address>, c: Address) {
    Doomed(g, {}, c) && !Doomed(g, claimed + {c}, c)
  }

  /** A chain of references, each tried while the ones before it are under way, to one that
      is spared. */
  ghost predicate Chain(g: Generator, claimed: set<Address>, path: seq<Address>)
    decreases |path|
  {
    && |path| >= 2 && Attempt(g, path[0]).Body?
    && Tries(g, claimed, Attempt(g, path[0]).refs, path[1])
    && if |path| == 2 then Spared(g, claimed, path[1]) else Chain(g, claimed + {path[1]}, path[1..])
  }

  ghost predicate Tries(g: Generator, claimed: set<Address>, refs: seq<Address>, c: Address) {
    exists i :: 0 <= i < |refs| && refs[i] == c && Tried(g, claimed, refs, i)
  }

  ghost predicate Slips(g: Generator, claimed: set<Address>, a: Address) {
    exists path :: Chain(g, claimed, path) && path[0] == a
  }

  /** Does trying `c` leave a body that will dangle, `c` itself or one below it? */
  ghost predicate Leaks(g: Generator, claimed: set<Address>, c: Address) {
    Spared(g, claimed, c) || Slips(g, claimed + {c}, c)
  }

  /** ... or trying any of the references from the `i`-th on? */
  ghost predicate LeaksFrom(g: Generator, claimed: set<Address>, refs: seq<Address>, i: nat) {
    exists j :: i <= j < |refs| && Tried(g, claimed, refs, j) && Leaks(g, claimed, refs[j])
  }

  lemma SlipsByOne(g: Generator, claimed: set<Address>, a: Address)
    requires Attempt(g, a).Body?
    ensures Slips(g, claimed, a) <==> LeaksFrom(g, claimed, Attempt(g, a).refs, 0)
  {
    var refs := Attempt(g, a).refs;
    if Slips(g, claimed, a) {
      var path :| Chain(g, claimed, path) && path[0] == a;
      var i :| 0 <= i < |refs| && refs[i] == path[1] && Tried(g, claimed, refs, i);
      assert |path| > 2 ==> path[1..][0] == refs[i];
      assert Leaks(g, claimed, refs[i]);
    }
    if LeaksFrom(g, claimed, refs, 0) {
      var j :| 0 <= j < |refs| && Tried(g, claimed, refs, j) && Leaks(g, claimed, refs[j]);
      assert Tries(g, claimed, refs, refs[j]);
      if Spared(g, claimed, refs[j]) {
        assert Chain(g, claimed, [a, refs[j]]);
      } else {
        var path :| Chain(g, claimed + {refs[j]}, path) && path[0] == refs[j];
        assert ([a] + path)[1..] == path;
        assert Chain(g, claimed, [a] + path);
      }
    }
  }

  /** Whatever slips reaches a refused entry. */
  lemma {:induction false} ChainIsDoomed(g: Generator, claimed: set<Address>, path: seq<Address>)
    requires Chain(g, claimed, path)
    ensures Doomed(g, {}, path[0]) && Doomed(g, {}, path[1])
    decreases |path|
  {
    if |path| > 2 {
      ChainIsDoomed(g, claimed + {path[1]}, path[1..]);
    }
    DoomedBy(g, {}, path[0], path[1]);
  }

  lemma LeaksIsDoomed(g: Generator, claimed: set<Address>, c: Address)
    requires Leaks(g, claimed, c)
    ensures Doomed(g, {}, c)
  {
    if !Spared(g, claimed, c) {
      var path :| Chain(g, claimed + {c}, path) && path[0] == c;
      ChainIsDoomed(g, claimed + {c}, path);
    }
  }

  // ------------------------------------------------------------ exactly when a run dangles

  /** No written name reaches a refused entry. */
  ghost predicate Clean(g: Generator, extra: Extra) {
    forall k :: k in extra && extra[k].Written? ==> !Doomed(g, {}, k)
  }

  function Claims(extra: Extra): set<Address> {
    set k | k in extra && extra[k].Claimed?
  }

  /** While nothing written can dangle, only the claimed names matter. */
  lemma {:induction false} LeadsAroundWritten(g: Generator, extra: Extra, path: seq<Address>)
    requires Clean(g, extra) && Leads(g, Claims(extra), path)
    ensures Leads(g, extra.Keys, path)
  {
    if Attempt(g, path[0]).Body? {
      LeadsWider(g, {}, Claims(extra), path[1..]);
      assert Doomed(g, {}, path[1]);
      LeadsAroundWritten(g, extra, path[1..]);
    }
  }

  lemma DoomedAroundWritten(g: Generator, extra: Extra, a: Address)
    requires Clean(g, extra)
    ensures Doomed(g, extra.Keys, a) <==> Doomed(g, Claims(extra), a)
  {
    if Doomed(g, Claims(extra), a) {
      var path :| Leads(g, Claims(extra), path) && path[0] == a;
      LeadsAroundWritten(g, extra, path);
    }
    if Doomed(g, extra.Keys, a) {
      DoomedWider(g, Claims(extra), extra.Keys, a);
    }
  }

  lemma {:induction false} TranslateSlips(g: Generator, extra: Extra, a: Address)
    requires Honest(g, extra) && Clean(g, extra)
    ensures Clean(g, Translate(g, extra, a).1) <==> !Slips(g, Claims(extra), a)
    decreases Unclaimed(extra), 1, 0
  {
    if Attempt(g, a).Body? {
      var refs := Attempt(g, a).refs;
      CloseSlips(g, extra, refs, 0);
      assert refs[0..] == refs;
      SlipsByOne(g, Claims(extra), a);
    }
  }

  lemma {:induction false} CloseSlips(g: Generator, extra: Extra, refs: seq<Address>, i: nat)
    requires Honest(g, extra) && i <= |refs|
    requires forall j :: 0 <= j < i ==> Passes(g, Claims(extra), refs[j])
    ensures Clean(g, Close(g, extra, refs, refs[i..]).1) <==>
            Clean(g, extra) && !LeaksFrom(g, Claims(extra), refs, i)
    decreases Unclaimed(extra), 0, |refs| - i
  {
    if !Clean(g, extra) {
      CloseStaysHonest(g, extra, refs, refs[i..]);
      StaysUnclean(g, extra, Close(g, extra, refs, refs[i..]).1);
    } else if i < |refs| {
      var c := refs[i];
      assert refs[i..][0] == c && refs[i..][1..] == refs[i + 1..];
      if g.declared(c) || c in extra {
        KnownPasses(g, extra, c);
        CloseSlips(g, extra, refs, i + 1);
      } else {
        assert c in Unclaimed(extra);
        TrySlips(g, extra, refs, i);
      }
    }
  }

  /** A name that is declared, claimed or written is passed over, and would leak nothing. */
  lemma KnownPasses(g: Generator, extra: Extra, c: Address)
    requires Clean(g, extra) && (g.declared(c) || c in extra)
    ensures Passes(g, Claims(extra), c)
    ensures !g.declared(c) && c !in Claims(extra) ==> !Leaks(g, Claims(extra), c)
  {
    var claimed := Claims(extra);
    if !g.declared(c) && c !in claimed {
      if Doomed(g, claimed + {c}, c) {
        DoomedWider(g, {}, claimed + {c}, c);
      }
      if Leaks(g, claimed, c) {
        LeaksIsDoomed(g, claimed, c);
      }
    }
  }

  /** A reference that is tried: its own call, and the name written or retracted. */
  lemma {:induction false} OwnCallLeaks(g: Generator, extra: Extra, c: Address)
    requires Honest(g, extra) && Clean(g, extra) && !g.declared(c) && c !in extra && c in Unclaimed(extra)
    ensures var (inner, after) := Translate(g, extra[c := Claimed], c);
            var names := Claims(extra);
            && c in after && (inner.Refused? <==> Doomed(g, names + {c}, c))
            && (inner.Refused? ==> (Clean(g, after - {c}) <==> !Leaks(g, names, c)))
            && (inner.Body? ==>
                  var later := after[c := Written(inner.refs)];
                  && Honest(g, later) && Claims(later) == names && extra.Keys < later.Keys
                  && (Clean(g, later) <==> !Leaks(g, names, c)))
    decreases Unclaimed(extra), 0, 0
  {
    var claimed := extra[c := Claimed];
    assert Claims(claimed) == Claims(extra) + {c};
    var (inner, after) := Translate(g, claimed, c);
    TranslateStaysHonest(g, claimed, c);
    TranslateSlips(g, claimed, c);
    TranslateSucceedsExactly(g, claimed, c);
    DoomedAroundWritten(g, claimed, c);
    assert after[c].Claimed?;
    if inner.Refused? {
      Retracts(g, after, c);
    } else {
      WriteStaysHonest(g, after, c, inner.refs);
      Writes(g, extra, after, c, inner.refs);
    }
  }

  /** ... and what follows. */
  lemma {:induction false} TrySlips(g: Generator, extra: Extra, refs: seq<Address>, i: nat)
    requires Honest(g, extra) && Clean(g, extra) && i < |refs|
    requires forall j :: 0 <= j < i ==> Passes(g, Claims(extra), refs[j])
    requires !g.declared(refs[i]) && refs[i] !in extra && refs[i] in Unclaimed(extra)
    ensures Clean(g, Close(g, extra, refs, refs[i..]).1) <==> !LeaksFrom(g, Claims(extra), refs, i)
    decreases Unclaimed(extra), 0, |refs| - i, 0
  {
    var c := refs[i];
    assert refs[i..][0] == c && refs[i..][1..] == refs[i + 1..];
    var (inner, after) := Translate(g, extra[c := Claimed], c);
    OwnCallLeaks(g, extra, c);
    TriedLeaks(g, Claims(extra), refs, i);
    if inner.Body? {
      CloseSlips(g, after[c := Written(inner.refs)], refs, i + 1);
    }
  }

  lemma Retracts(g: Generator, extra: Extra, c: Address)
    requires c in extra && extra[c].Claimed?
    ensures Clean(g, extra - {c}) <==> Clean(g, extra)
  {}

  lemma Writes(g: Generator, extra: Extra, after: Extra, c: Address, refs: seq<Address>)
    requires c !in extra && c in after && after[c].Claimed?
    requires forall k :: k in extra ==> k in after && after[k] == extra[k]
    requires forall k :: k in after && k !in extra && k != c ==> after[k].Written?
    ensures var later := after[c := Written(refs)];
            && Claims(later) == Claims(extra)
            && (Clean(g, later) <==> Clean(g, after) && !Doomed(g, {}, c))
  {
    var later := after[c := Written(refs)];
    if Clean(g, later) {
      assert later[c].Written?;
      assert forall k :: k in after && after[k].Written? ==> later[k].Written?;
    }
  }

  lemma TriedLeaks(g: Generator, claimed: set<Address>, refs: seq<Address>, i: nat)
    requires i < |refs| && Tried(g, claimed, refs, i)
    ensures LeaksFrom(g, claimed, refs, i) <==> Leaks(g, claimed, refs[i]) || LeaksFrom(g, claimed, refs, i + 1)
    ensures !Passes(g, claimed, refs[i]) ==> !LeaksFrom(g, claimed, refs, i + 1)
  {}

  lemma StaysUnclean(g: Generator, extra: Extra, after: Extra)
    requires !Clean(g, extra) && forall k :: k in extra ==> k in after && after[k] == extra[k]
    ensures !Clean(g, after)
  {}

  lemma {:induction false} RunStaysClean(g: Generator, entries: seq<Address>)
    ensures Clean(g, TranslateAll(g, map[], entries)) <==>
            forall k :: 0 <= k < |entries| ==> !Slips(g, {}, entries[k])
  {
    if entries != [] {
      var n := |entries| - 1;
      var extra := TranslateAll(g, map[], entries[..n]);
      RunStaysClean(g, entries[..n]);
      RunStaysHonest(g, entries[..n]);
      if Clean(g, extra) {
        assert Claims(extra) == {};
        TranslateSlips(g, extra, entries[n]);
        assert forall k :: 0 <= k < n ==> !Slips(g, {}, entries[..n][k]);
      } else {
        TranslateStaysHonest(g, extra, entries[n]);
        StaysUnclean(g, extra, TranslateAll(g, map[], entries));
      }
    }
  }

  /** Exactly which runs leave a dangling body, told from the graph and the entries alone:
      after any sequence of successful and failed calls, every reference in `extra` links if
      and only if no entry has a chain of references, each tried while the ones before it
      are under way, to one that reaches a refused entry only through those. */
  lemma RunLinksExactly(g: Generator, entries: seq<Address>)
    ensures Closed(g, TranslateAll(g, map[], entries)) <==>
            forall k :: 0 <= k < |entries| ==> !Slips(g, {}, entries[k])
  {
    RunClosedExactly(g, entries);
    RunStaysHonest(g, entries);
    RunStaysClean(g, entries);
  }

  // ------------------------------------------------------------ with and without cycles

  /** A reference to an entry that reaches a refused one only ever leads downwards. Cycles
      among entries that can be recovered are not restricted. */
  ghost predicate NoDoomedCycle(g: Generator, rank: Address -> nat) {
    forall a, r :: Attempt(g, a).Body? && r in Attempt(g, a).refs && !g.declared(r) && Doomed(g, {}, r) ==>
      rank(r) < rank(a)
  }

  /** The names under way that will be retracted are at `level` or above. */
  ghost predicate ClaimsAbove(g: Generator, claimed: set<Address>, rank: Address -> nat, level: nat) {
    forall k :: k in claimed && Doomed(g, {}, k) ==> rank(k) >= level
  }

  /** Going down, the way to a refused entry meets no name above. */
  lemma {:induction false} LeadsBelow(g: Generator, claimed: set<Address>, path: seq<Address>, rank: Address -> nat)
    requires NoDoomedCycle(g, rank) && Leads(g, {}, path) && ClaimsAbove(g, claimed, rank, rank(path[0]))
    ensures Leads(g, claimed, path)
  {
    if Attempt(g, path[0]).Body? {
      assert Doomed(g, {}, path[1]);
      LeadsBelow(g, claimed, path[1..], rank);
    }
  }

  lemma {:induction false} NoChainDown(g: Generator, claimed: set<Address>, path: seq<Address>, rank: Address -> nat)
    requires NoDoomedCycle(g, rank) && path != [] && ClaimsAbove(g, claimed, rank, rank(path[0]))
    ensures !Chain(g, claimed, path)
    decreases |path|
  {
    if Chain(g, claimed, path) {
      ChainIsDoomed(g, claimed, path);
      if |path| == 2 {
        var down :| Leads(g, {}, down) && down[0] == path[1];
        LeadsBelow(g, claimed + {path[1]}, down, rank);
      } else {
        NoChainDown(g, claimed + {path[1]}, path[1..], rank);
      }
    }
  }

  /** So if no cycle goes through names that may be retracted, every run keeps everything
      linked, whichever of its calls fail; whatever cycles there are among the rest. */
  lemma RunWithoutDoomedCyclesIsClosed(g: Generator, entries: seq<Address>, rank: Address -> nat)
    requires NoDoomedCycle(g, rank)
    ensures Closed(g, TranslateAll(g, map[], entries))
  {
    RunLinksExactly(g, entries);
    forall path | path != []
      ensures !Chain(g, {}, path)
    {
      NoChainDown(g, {}, path, rank);
    }
  }

  /** Four entries in one function: 1 refers to 2, 2 to what `two` says, 3 back to 2, and 4
      cannot be translated. */
  function Looping(two: seq<Address>): Generator {
    Generator([Function(0, 16)], (owner, a) => true,
              (a, end) => Code(a != 4, true, [],
                               if a == 1 then [2] else if a == 2 then two else if a == 3 then [2] else []),
              a => false)
  }

  /** Entry 2 refers to 3 and then to 4. */
  function Loop(): Generator { Looping([3, 4]) }

  lemma LoopAttempts(two: seq<Address>)
    ensures Attempt(Looping(two), 1) == Body([2]) && Attempt(Looping(two), 2) == Body(two)
    ensures Attempt(Looping(two), 3) == Body([2]) && Attempt(Looping(two), 4) == Refused(IncompleteTranslation)
  {
    var fs := Looping(two).functions;
    assert Bisect(fs, 1) == Bisect(fs, 2) == Bisect(fs, 3) == Bisect(fs, 4) == 1;
  }

  /** The case to exclude is real: entry 3 is recovered while 2 is claimed, and is kept when
      2 is retracted, so the run ends with a body that calls a name nobody defines. */
  lemma CycleLeavesDangling()
    ensures var (body, extra) := Translate(Loop(), map[], 1);
            body.Refused? && extra == map[3 := Written([2])] && !Closed(Loop(), extra)
  {
    LoopAttempts([3, 4]);
    var g := Loop();
    var e2: Extra := map[2 := Claimed];
    var e3 := e2[3 := Claimed];
    assert Close(g, e3, [2], [2]) == Close(g, e3, [2], []) == (Body([2]), e3);
    assert Translate(g, e3, 3) == (Body([2]), e3);
    var e4 := e3[3 := Written([2])];
    assert Translate(g, e4[4 := Claimed], 4) == (Refused(IncompleteTranslation), e4[4 := Claimed]);
    assert e4[4 := Claimed] - {4} == e4;
    var whyTwo := Calls(4, IncompleteTranslation);
    assert [3, 4][1..] == [4];
    assert Close(g, e4, [3, 4], [4]) == (Refused(whyTwo), e4);
    assert Close(g, e2, [3, 4], [3, 4]) == (Refused(whyTwo), e4);
    assert Translate(g, e2, 2) == (Refused(whyTwo), e4);
    assert e4 - {2} == map[3 := Written([2])];
    assert Close(g, map[], [2], [2]) == (Refused(Calls(2, whyTwo)), e4 - {2});
    assert 2 in [2];
  }

  /** That graph does have a cycle through names that may be retracted: no rank fits it. */
  lemma LoopIsExcluded(rank: Address -> nat)
    ensures !NoDoomedCycle(Loop(), rank)
  {
    LoopAttempts([3, 4]);
    var g := Loop();
    assert Leads(g, {}, [4]);
    DoomedBy(g, {}, 2, 4);
    DoomedBy(g, {}, 3, 2);
    assert 3 in Attempt(g, 2).refs && 2 in Attempt(g, 3).refs;
  }

  /** The order of the references decides: with 4 tried before 3 the same cycle is there, and
      no run ever leaves anything dangling. */
  lemma RefusedFirstNeverDangles(entries: seq<Address>, rank: Address -> nat)
    ensures !NoDoomedCycle(Looping([4, 3]), rank)
    ensures Closed(Looping([4, 3]), TranslateAll(Looping([4, 3]), map[], entries))
  {
    var g := Looping([4, 3]);
    LoopAttempts([4, 3]);
    assert Leads(g, {}, [4]);
    DoomedBy(g, {}, 2, 4);
    DoomedBy(g, {}, 3, 2);
    assert 3 in Attempt(g, 2).refs && 2 in Attempt(g, 3).refs;
    forall path: seq<Address>
      ensures !Chain(g, {}, path)
    {
      RefusedFirstHasNoChain({}, path);
    }
    RunLinksExactly(g, entries);
  }

  lemma {:induction false} RefusedFirstHasNoChain(claimed: set<Address>, path: seq<Address>)
    requires 4 !in claimed
    ensures !Chain(Looping([4, 3]), claimed, path)
    decreases |path|
  {
    var g := Looping([4, 3]);
    if |path| >= 2 {
      FourIsDoomed(claimed + {path[1]});
      if path[1] == 2 {
        RefusedFirstHasNoChain(claimed + {2}, path[1..]);
      } else if Chain(g, claimed, path) {
        var refs := Attempt(g, path[0]).refs;
        var i :| 0 <= i < |refs| && refs[i] == path[1] && Tried(g, claimed, refs, i);
        ThreeIsNeverTried(claimed, path[0], i);
      }
    }
  }

  lemma ThreeIsNeverTried(claimed: set<Address>, a: Address, i: nat)
    requires 4 !in claimed && Attempt(Looping([4, 3]), a).Body?
    requires var refs := Attempt(Looping([4, 3]), a).refs;
             i < |refs| && Tried(Looping([4, 3]), claimed, refs, i)
    ensures Attempt(Looping([4, 3]), a).refs[i] in {2, 4}
  {
    var g := Looping([4, 3]);
    FourIsDoomed(claimed + {4});
    LoopRefs([4, 3], a);
    assert !Passes(g, claimed, 4);
    if a == 2 {
      assert Attempt(g, a).refs[0] == 4;
    }
  }

  /** No other address refers to anything. */
  lemma LoopRefs(two: seq<Address>, a: Address)
    requires Attempt(Looping(two), a).Body?
    ensures Attempt(Looping(two), a).refs == if a == 2 then two else if a == 1 || a == 3 then [2] else []
  {}

  lemma FourIsDoomed(claimed: set<Address>)
    ensures var g := Looping([4, 3]);
            Attempt(g, 4).Refused? && Doomed(g, claimed, 4) && (4 !in claimed ==> Doomed(g, claimed, 2))
    ensures Attempt(Looping([4, 3]), 1) == Body([2]) && Attempt(Looping([4, 3]), 2) == Body([4, 3])
    ensures Attempt(Looping([4, 3]), 3) == Body([2])
  {
    var g := Looping([4, 3]);
    LoopAttempts([4, 3]);
    assert Leads(g, claimed, [4]);
    if 4 !in claimed {
      DoomedBy(g, claimed, 2, 4);
    }
  }

  // ------------------------------------------------------------ the class

  /** `EntryRecovery`: one dictionary shared by every call. */
  class EntryRecovery {
    const g: Generator
    var extra: Extra

    constructor (g: Generator)
      ensures this.g == g && extra == map[]
    {
      this.g := g;
      extra := map[];
    }

    /** `translate` as it is written: one name claimed, recursed into, and written or
        retracted after another. */
    method Run(a: Address) returns (r: Outcome)
      modifies this
      ensures (r, extra) == Translate(g, old(extra), a)
      decreases Unclaimed(extra)
    {
      r := Attempt(g, a);
      if r.Refused? {
        return;
      }
      var refs := r.refs;
      var i := 0;
      while i < |refs|
        invariant 0 <= i <= |refs| && old(extra).Keys <= extra.Keys
        invariant Translate(g, old(extra), a) == Close(g, extra, refs, refs[i..])
      {
        var c := refs[i];
        assert refs[i..][0] == c && refs[i..][1..] == refs[i + 1..];
        if !g.declared(c) && c !in extra {
          assert c in Unclaimed(extra) && c in Unclaimed(old(extra));
          extra := extra[c := Claimed];
          var body := Run(c);
          if body.Refused? {
            extra := extra - {c};
            return Refused(Calls(c, body.why));
          }
          extra := extra[c := Written(body.refs)];
        }
        i := i + 1;
      }
    }

    /** What its callers rely on. */
    method Recover(a: Address) returns (r: Outcome)
      modifies this
      ensures (r, extra) == Translate(g, old(extra), a)
      ensures r.Body? <==> !Doomed(g, old(extra).Keys, a)
      ensures r.Body? ==> r == Attempt(g, a) && Covered(g, extra, r.refs) && Grown(g, old(extra), extra)
      ensures old(extra).Keys <= extra.Keys
    {
      TranslateSucceedsExactly(g, extra, a);
      r := Run(a);
    }
  }

  // ------------------------------------------------------------ the arm phase

  /** One recovered arm: its own body, or none when `extra` already has it. */
  datatype Arm = Arm(at: Address, body: Slot)

  /** What the scan of a tree finds: the arms of the tables its text dispatches through.
      Arms are the keys of a dictionary, so none is listed twice. */
  datatype Scanner = Scanner(arms: (Extra, seq<Arm>) -> seq<Address>)

  ghost predicate ListsOnce(scan: Scanner) {
    forall extra, entries :: Distinct(scan.arms(extra, entries))
  }

  predicate Distinct(arms: seq<Address>) {
    forall i, j :: 0 <= i < j < |arms| ==> arms[i] != arms[j]
  }

  predicate Handled(entries: seq<Arm>, skipped: map<Address, Why>, a: Address) {
    a in skipped || exists i :: 0 <= i < |entries| && entries[i].at == a
  }

  /** Each arm once, recovered or skipped but not both; a recovered one has its own body,
      with every reference linked, or already had one; a skipped one cannot be recovered. */
  ghost predicate ArmsOk(g: Generator, extra: Extra, entries: seq<Arm>, skipped: map<Address, Why>) {
    && (forall i, j :: 0 <= i < j < |entries| ==> entries[i].at != entries[j].at)
    && (forall i :: 0 <= i < |entries| ==>
          && entries[i].at !in skipped
          && if entries[i].body.Claimed? then entries[i].at in extra
             else Attempt(g, entries[i].at) == Body(entries[i].body.refs)
                  && Covered(g, extra, entries[i].body.refs))
    && (forall a :: a in skipped ==> Doomed(g, {}, a) && (SortedByStart(g.functions) ==> Explains(g, a, skipped[a])))
  }

  lemma ArmsOkLater(g: Generator, extra: Extra, later: Extra, entries: seq<Arm>, skipped: map<Address, Why>)
    requires ArmsOk(g, extra, entries, skipped) && extra.Keys <= later.Keys
    ensures ArmsOk(g, later, entries, skipped)
  {}

  lemma HandledNext(entries: seq<Arm>, skipped: map<Address, Why>, arm: Arm)
    ensures forall a :: Handled(entries + [arm], skipped, a) <==> a == arm.at || Handled(entries, skipped, a)
  {
    var longer := entries + [arm];
    forall a
      ensures Handled(longer, skipped, a) <==> a == arm.at || Handled(entries, skipped, a)
    {
      if exists i :: 0 <= i < |entries| && entries[i].at == a {
        var i :| 0 <= i < |entries| && entries[i].at == a;
        assert longer[i].at == a;
      }
      assert longer[|entries|].at == arm.at;
    }
  }

  /** The arms found that no earlier round has seen. */
  function Unseen(found: seq<Address>, seen: set<Address>): (unseen: seq<Address>)
    ensures forall a :: a in unseen <==> a in found && a !in seen
  {
    if found == [] then []
    else
      var k := |found| - 1;
      assert found == found[..k] + [found[k]];
      if found[k] in seen then Unseen(found[..k], seen) else Unseen(found[..k], seen) + [found[k]]
  }

  lemma {:induction false} UnseenOnce(found: seq<Address>, seen: set<Address>)
    requires Distinct(found)
    ensures Distinct(Unseen(found, seen))
  {
    if found != [] {
      var k := |found| - 1;
      UnseenOnce(found[..k], seen);
      assert found[k] !in found[..k];
    }
  }

  lemma ArmAdded(g: Generator, extra: Extra, entries: seq<Arm>, skipped: map<Address, Why>, arm: Arm)
    requires ArmsOk(g, extra, entries, skipped) && !Handled(entries, skipped, arm.at)
    requires if arm.body.Claimed? then arm.at in extra
             else Attempt(g, arm.at) == Body(arm.body.refs) && Covered(g, extra, arm.body.refs)
    ensures ArmsOk(g, extra, entries + [arm], skipped)
    ensures forall a :: Handled(entries + [arm], skipped, a) <==> a == arm.at || Handled(entries, skipped, a)
  {
    HandledNext(entries, skipped, arm);
    var longer := entries + [arm];
    forall i, j | 0 <= i < j < |longer|
      ensures longer[i].at != longer[j].at
    {
      assert entries[i].at == longer[i].at;
    }
  }

  lemma ArmSkipped(g: Generator, extra: Extra, entries: seq<Arm>, skipped: map<Address, Why>, a: Address, why: Why)
    requires ArmsOk(g, extra, entries, skipped) && !Handled(entries, skipped, a) && Doomed(g, {}, a)
    requires SortedByStart(g.functions) ==> Explains(g, a, why)
    ensures ArmsOk(g, extra, entries, skipped[a := why])
    ensures forall b :: Handled(entries, skipped[a := why], b) <==> b == a || Handled(entries, skipped, b)
  {}

  /** What becomes of one fresh arm: nothing but a row when it has a body already; or its own
      body, or the reason it has none, and what `translate` leaves in `extra`. */
  ghost predicate ArmDone(
    g: Generator, extra: Extra, extra': Extra, arm: Address,
    entries: seq<Arm>, entries': seq<Arm>, skipped: map<Address, Why>, skipped': map<Address, Why>)
  {
    if arm in extra then entries' == entries + [Arm(arm, Claimed)] && skipped' == skipped && extra' == extra
    else
      && extra' == Translate(g, extra, arm).1
      && match Translate(g, extra, arm).0
         case Body(refs) => entries' == entries + [Arm(arm, Written(refs))] && skipped' == skipped
         case Refused(why) => entries' == entries && skipped' == skipped[arm := why]
  }

  /** An arm's own name is not claimed while it is recovered, so `extra` can end up with a
      second body for it: exactly when references lead from the arm back to itself. */
  lemma DefinedTwiceExactly(g: Generator, extra: Extra, arm: Address)
    requires arm !in extra && Translate(g, extra, arm).0.Body?
    ensures arm in Translate(g, extra, arm).1 <==> LeadsTo(g, extra.Keys, arm, arm)
    ensures arm in Translate(g, extra, arm).1 ==>
              Translate(g, extra, arm).1[arm] == Written(Translate(g, extra, arm).0.refs)
  {
    AddsExactlyLinked(g, extra, arm, arm);
    SuccessGrows(g, extra, arm);
  }

  /** It happens: entry 2 refers to 3, and 3 back to 2. */
  lemma ArmDefinedTwice()
    ensures var (body, extra) := Translate(Looping([3]), map[], 2);
            body == Body([3]) && extra.Keys == {2, 3} && extra[2] == Written([3])
  {
    LoopAttempts([3]);
    var g := Looping([3]);
    var e3: Extra := map[3 := Claimed];
    var e2 := e3[2 := Claimed];
    assert Close(g, e2, [3], [3]) == Close(g, e2, [3], []) == (Body([3]), e2);
    assert Translate(g, e2, 2) == (Body([3]), e2);
    var w2 := e2[2 := Written([3])];
    assert Close(g, e3, [2], [2]) == Close(g, w2, [2], []) == (Body([2]), w2);
    assert Translate(g, e3, 3) == (Body([2]), w2);
    var w3 := w2[3 := Written([2])];
    assert Close(g, map[], [3], [3]) == Close(g, w3, [3], []) == (Body([3]), w3);
  }

  /** One fresh arm of a round. */
  method RecoverArm(recovery: EntryRecovery, arm: Address, entries: seq<Arm>, skipped: map<Address, Why>)
    returns (entries': seq<Arm>, skipped': map<Address, Why>)
    requires ArmsOk(recovery.g, recovery.extra, entries, skipped) && !Handled(entries, skipped, arm)
    modifies recovery
    ensures old(recovery.extra).Keys <= recovery.extra.Keys
    ensures ArmsOk(recovery.g, recovery.extra, entries', skipped')
    ensures forall a :: Handled(entries', skipped', a) <==> a == arm || Handled(entries, skipped, a)
    ensures |entries'| + |skipped'| == |entries| + |skipped| + 1
    ensures ArmDone(recovery.g, old(recovery.extra), recovery.extra, arm, entries, entries', skipped, skipped')
  {
    entries', skipped' := entries, skipped;
    if arm in recovery.extra {
      ArmAdded(recovery.g, recovery.extra, entries, skipped, Arm(arm, Claimed));
      entries' := entries + [Arm(arm, Claimed)];
      return;
    }
    ghost var was := recovery.extra;
    var result := recovery.Recover(arm);
    ArmsOkLater(recovery.g, was, recovery.extra, entries, skipped);
    if result.Refused? {
      DoomedWider(recovery.g, {}, was.Keys, arm);
      if SortedByStart(recovery.g.functions) {
        AnswerExplained(recovery.g, was, arm);
      }
      ArmSkipped(recovery.g, recovery.extra, entries, skipped, arm, result.why);
      skipped' := skipped[arm := result.why];
    } else {
      ArmAdded(recovery.g, recovery.extra, entries, skipped, Arm(arm, Written(result.refs)));
      entries' := entries + [Arm(arm, Written(result.refs))];
    }
  }

  /** What has been seen is what has been handled. */
  ghost predicate SeenIsHandled(seen: set<Address>, entries: seq<Arm>, skipped: map<Address, Why>) {
    forall a :: a in seen <==> Handled(entries, skipped, a)
  }

  lemma FrontGrows(s: seq<Address>, i: nat)
    requires i < |s|
    ensures forall a :: a in s[..i + 1] <==> a in s[..i] || a == s[i]
  {
    assert s[..i + 1] == s[..i] + [s[i]];
  }

  /** One round: every arm it found and had not seen. */
  method RecoverRound(
    recovery: EntryRecovery, unseen: seq<Address>,
    entries0: seq<Arm>, skipped0: map<Address, Why>, seen0: set<Address>)
    returns (entries: seq<Arm>, skipped: map<Address, Why>, seen: set<Address>)
    requires ArmsOk(recovery.g, recovery.extra, entries0, skipped0)
    requires SeenIsHandled(seen0, entries0, skipped0)
    requires Distinct(unseen) && forall a :: a in unseen ==> a !in seen0
    modifies recovery
    ensures old(recovery.extra).Keys <= recovery.extra.Keys
    ensures ArmsOk(recovery.g, recovery.extra, entries, skipped)
    ensures SeenIsHandled(seen, entries, skipped)
    ensures |entries| + |skipped| == |entries0| + |skipped0| + |unseen|
    ensures forall a :: a in seen <==> a in seen0 || a in unseen
  {
    entries, skipped, seen := entries0, skipped0, seen0;
    for i := 0 to |unseen|
      invariant old(recovery.extra).Keys <= recovery.extra.Keys
      invariant ArmsOk(recovery.g, recovery.extra, entries, skipped)
      invariant SeenIsHandled(seen, entries, skipped)
      invariant forall k :: i <= k < |unseen| ==> unseen[k] !in seen
      invariant |entries| + |skipped| == |entries0| + |skipped0| + i
      invariant forall a :: a in seen <==> a in seen0 || a in unseen[..i]
    {
      entries, skipped := RecoverArm(recovery, unseen[i], entries, skipped);
      seen := seen + {unseen[i]};
      FrontGrows(unseen, i);
    }
    assert unseen[..|unseen|] == unseen;
  }

  /** Is every arm the scan finds in this tree handled? */
  ghost predicate NothingNew(scan: Scanner, extra: Extra, entries: seq<Arm>, skipped: map<Address, Why>) {
    forall a :: a in scan.arms(extra, entries) ==> Handled(entries, skipped, a)
  }

  /** A tree that a round scanned: what was in `extra`, and the arms recovered so far. */
  datatype Tree = Tree(extra: Extra, entries: seq<Arm>)

  /** Did some round find the arm? */
  predicate Found(scan: Scanner, trees: seq<Tree>, a: Address) {
    exists i :: 0 <= i < |trees| && a in scan.arms(trees[i].extra, trees[i].entries)
  }

  lemma FoundNext(scan: Scanner, trees: seq<Tree>, tree: Tree)
    ensures forall a :: Found(scan, trees + [tree], a) <==>
                        Found(scan, trees, a) || a in scan.arms(tree.extra, tree.entries)
  {
    var longer := trees + [tree];
    forall a
      ensures Found(scan, longer, a) <==> Found(scan, trees, a) || a in scan.arms(tree.extra, tree.entries)
    {
      if Found(scan, trees, a) {
        var i :| 0 <= i < |trees| && a in scan.arms(trees[i].extra, trees[i].entries);
        assert longer[i] == trees[i];
      }
      assert longer[|trees|] == tree;
    }
  }

  /** `recover_switch_arms`: rescan with everything recovered so far in place, until a round
      finds nothing new or the rounds run out. When it converges, the tree it leaves holds
      no arm that was neither recovered nor skipped. */
  method RecoverSwitchArms(recovery: EntryRecovery, scan: Scanner, rounds: nat)
    returns (entries: seq<Arm>, skipped: map<Address, Why>, converged: bool, ghost trees: seq<Tree>)
    requires ListsOnce(scan)
    modifies recovery
    ensures old(recovery.extra).Keys <= recovery.extra.Keys
    ensures ArmsOk(recovery.g, recovery.extra, entries, skipped)
    ensures converged ==> NothingNew(scan, recovery.extra, entries, skipped)
    ensures !converged ==> |entries| + |skipped| >= rounds
    ensures forall a :: Handled(entries, skipped, a) <==> Found(scan, trees, a)
    ensures |trees| <= rounds && (rounds > 0 ==> trees != [] && trees[0] == Tree(old(recovery.extra), []))
    ensures converged ==> trees != [] && trees[|trees| - 1] == Tree(recovery.extra, entries)
    ensures !converged ==> |trees| == rounds
  {
    entries, skipped, converged, trees := [], map[], false, [];
    var seen: set<Address> := {};
    var round := 0;
    while round < rounds
      invariant 0 <= round <= rounds
      invariant old(recovery.extra).Keys <= recovery.extra.Keys
      invariant ArmsOk(recovery.g, recovery.extra, entries, skipped)
      invariant SeenIsHandled(seen, entries, skipped)
      invariant |entries| + |skipped| >= round && |trees| == round
      invariant forall a :: Handled(entries, skipped, a) <==> Found(scan, trees, a)
      invariant if round == 0 then entries == [] && recovery.extra == old(recovery.extra)
                else trees[0] == Tree(old(recovery.extra), [])
    {
      var found := scan.arms(recovery.extra, entries);
      FoundNext(scan, trees, Tree(recovery.extra, entries));
      trees := trees + [Tree(recovery.extra, entries)];
      var unseen := Unseen(found, seen);
      if unseen == [] {
        assert forall a :: a in found ==> a in seen;
        converged := true;
        return;
      }
      UnseenOnce(found, seen);
      entries, skipped, seen := RecoverRound(recovery, unseen, entries, skipped, seen);
      round := round + 1;
    }
  }
}
