/**
 The write-xor-execute compile protocol (asbestos/asbestos.c, fiber_block_compile_protected): one
 compiling thread against every store and remap of the address space. Compilations are serialized by
 the index lock, so only this thread marks pages.

 A store is two steps, because the source's is: a look, and `Write`, the store instruction itself. The look
 is a `Hit` on a TLB entry that takes stores and carries the current generation, or a `Permit`, a walk of the
 page table, which unmarks a marked page and bumps `changes`. `Stamp` enters a page into a TLB for stores.
 The fields `dirtied` and `moment` only record history.
 */
module CompileProtocol {

  type Page = nat
  type Byte = nat

  const GIVE_UP: nat := 16

  /** One byte of guest code the decoder looked at. */
  datatype Fetch = Fetch(page: Page, offset: nat, byte: Byte)

  datatype Exit = Verified | GaveUp | Unmapped | NoBlock

  datatype Pc =
    | MarkFirst(attempt: nat)
    | Snapshot(attempt: nat)
    | Reading(attempt: nat, gen: nat, log: seq<Fetch>)
    | MarkTail(attempt: nat, gen: nat, log: seq<Fetch>)
    | CheckGen(attempt: nat, gen: nat, log: seq<Fetch>)
    | CheckFirst(attempt: nat, log: seq<Fetch>, moment: Moment)
    | CheckTail(attempt: nat, log: seq<Fetch>, moment: Moment)
    | Unprotected
    | Returned(exit: Exit, attempt: nat, log: seq<Fetch>, moment: Moment)

  /** Memory at the load of `changes` that ends the read, and the pages changed since the read began. */
  datatype Moment = Moment(mem: map<Page, seq<Byte>>, dirtied: set<Page>)

  /** `stamped` has the newest generation in any thread's TLB entry that takes stores to the page.
      `first` is the page of the block's first instruction; a block ends on it or on the next one. */
  datatype State = State(mem: map<Page, seq<Byte>>, marked: set<Page>, changes: nat, permitted: multiset<Page>,
                         stamped: map<Page, nat>, first: Page, dirtied: set<Page>, pc: Pc)

  datatype Step =
    // the other threads
    | Permit(page: Page)
    | Hit(page: Page)
    | Stamp(page: Page)
    | Write(page: Page, offset: nat, byte: Byte)
    | Remap(page: Page, bytes: seq<Byte>)
    | Unmap(page: Page)
    // the compiling thread
    | TryMarkFirst
    | TakeSnapshot
    | FetchByte(page: Page, offset: nat)
    | EndOfBlock
    | NoBlockMade
    | TryMarkTail
    | LoadChanges
    | FirstIntact
    | TailIntact
    | CompileUnprotected(log: seq<Fetch>)

  predicate Crossed(first: Page, log: seq<Fetch>) {
    exists f :: f in log && f.page != first
  }

  /** The check failed: accept the block after too many attempts, or discard it and start over. */
  function Retry(attempt: nat, log: seq<Fetch>, moment: Moment): Pc {
    if attempt >= GIVE_UP then Returned(GaveUp, attempt, log, moment) else MarkFirst(attempt + 1)
  }

  predicate Enabled(s: State, step: Step) {
    match step
    case Permit(p) => p in s.mem
    case Hit(p) => p in s.stamped && s.stamped[p] == s.changes
    case Stamp(p) => p in s.mem && p !in s.marked
    case Write(p, off, _) => p in s.permitted && (p in s.mem ==> off < |s.mem[p]|)
    case Remap(_, _) => true
    case Unmap(_) => true
    case TryMarkFirst => s.pc.MarkFirst?
    case TakeSnapshot => s.pc.Snapshot?
    case FetchByte(p, off) => s.pc.Reading? && (p == s.first || p == s.first + 1) && p in s.mem && off < |s.mem[p]|
    case EndOfBlock => s.pc.Reading?
    case NoBlockMade => s.pc.Reading?
    case TryMarkTail => s.pc.MarkTail?
    case LoadChanges => s.pc.CheckGen?
    case FirstIntact => s.pc.CheckFirst?
    case TailIntact => s.pc.CheckTail?
    case CompileUnprotected(_) => s.pc.Unprotected?
  }

  function Put(bytes: seq<Byte>, offset: nat, byte: Byte): seq<Byte>
    requires offset < |bytes|
  {
    bytes[offset := byte]
  }

  /** mmu_mark_code_page on a mapped page. */
  function Mark(s: State, p: Page): State {
    if p in s.marked then s else s.(marked := s.marked + {p}, changes := s.changes + 1)
  }

  function Next(s: State, step: Step): State
    requires Enabled(s, step)
  {
    match step
    case Permit(p) =>
      var granted := s.(permitted := s.permitted + multiset{p});
      if p in s.marked then granted.(marked := s.marked - {p}, changes := s.changes + 1) else granted
    case Hit(p) => s.(permitted := s.permitted + multiset{p})
    case Stamp(p) => s.(stamped := s.stamped[p := s.changes])
    case Write(p, off, v) =>
      var done := s.(permitted := s.permitted - multiset{p});
      if p in s.mem then done.(mem := s.mem[p := Put(s.mem[p], off, v)], dirtied := s.dirtied + {p}) else done
    case Remap(p, bytes) =>
      s.(mem := s.mem[p := bytes], marked := s.marked - {p}, changes := s.changes + 1, dirtied := s.dirtied + {p})
    case Unmap(p) =>
      s.(mem := s.mem - {p}, marked := s.marked - {p}, changes := s.changes + 1, dirtied := s.dirtied + {p})
    case TryMarkFirst =>
      if s.first !in s.mem then s.(pc := Unprotected)
      else Mark(s, s.first).(pc := Snapshot(s.pc.attempt))
    case TakeSnapshot => s.(dirtied := {}, pc := Reading(s.pc.attempt, s.changes, []))
    case FetchByte(p, off) => s.(pc := Reading(s.pc.attempt, s.pc.gen, s.pc.log + [Fetch(p, off, s.mem[p][off])]))
    case NoBlockMade => s.(pc := Returned(NoBlock, s.pc.attempt, s.pc.log, Moment(s.mem, s.dirtied)))
    case EndOfBlock =>
      if Crossed(s.first, s.pc.log) then s.(pc := MarkTail(s.pc.attempt, s.pc.gen, s.pc.log))
      else s.(pc := CheckGen(s.pc.attempt, s.pc.gen, s.pc.log))
    case TryMarkTail =>
      var tail := s.first + 1;
      if tail in s.mem && tail !in s.marked then Mark(s, tail).(pc := MarkFirst(s.pc.attempt + 1))
      else s.(pc := CheckGen(s.pc.attempt, s.pc.gen, s.pc.log))
    case LoadChanges =>
      var moment := Moment(s.mem, s.dirtied);
      s.(pc := if s.changes == s.pc.gen then CheckFirst(s.pc.attempt, s.pc.log, moment)
               else Retry(s.pc.attempt, s.pc.log, moment))
    case FirstIntact =>
      s.(pc := if s.first !in s.mem || s.first !in s.marked then Retry(s.pc.attempt, s.pc.log, s.pc.moment)
               else if Crossed(s.first, s.pc.log) then CheckTail(s.pc.attempt, s.pc.log, s.pc.moment)
               else Returned(Verified, s.pc.attempt, s.pc.log, s.pc.moment))
    case TailIntact =>
      s.(pc := if s.first + 1 in s.mem && s.first + 1 in s.marked then Returned(Verified, s.pc.attempt, s.pc.log, s.pc.moment)
               else Retry(s.pc.attempt, s.pc.log, s.pc.moment))
    case CompileUnprotected(log) => s.(pc := Returned(Unmapped, 0, log, Moment(s.mem, s.dirtied)))
  }

  // ---------------------------------------------------------------------------------------------
  // What a verified block was decoded from
  // ---------------------------------------------------------------------------------------------

  /** The block's bytes are those of the memory at the final check, and no page it was read from was
      stored to or remapped since the read began. */
  ghost predicate Faithful(log: seq<Fetch>, moment: Moment) {
    forall f :: f in log ==> f.page !in moment.dirtied && Matches(f, moment.mem)
  }

  predicate Matches(f: Fetch, mem: map<Page, seq<Byte>>) {
    f.page in mem && f.offset < |mem[f.page]| && mem[f.page][f.offset] == f.byte
  }

  /** No store that was permitted before the snapshot is still to write a page that is marked now, unless the
      mark of the first page is already gone and the attempt will come to nothing. This is what
      asbestos.c:526-538 relies on: a store looks, unmarks and writes as one. */
  predicate Quiet(s: State) {
    s.first in s.marked ==> s.first !in s.permitted && (s.first + 1 in s.marked ==> s.first + 1 !in s.permitted)
  }

  predicate Allowed(s: State, step: Step) {
    Enabled(s, step) && (step.TakeSnapshot? ==> Quiet(s))
  }

  /** As long as `changes` has not moved, page p holds what was read from it. */
  ghost predicate Clean(s: State, p: Page, log: seq<Fetch>) {
    p !in s.dirtied && forall f :: f in log && f.page == p ==> Matches(f, s.mem)
  }

  ghost predicate Guarded(s: State, p: Page, log: seq<Fetch>) {
    && (p in s.marked ==> p !in s.permitted)
    && (p in s.marked || p !in s.mem ==> Clean(s, p, log))
  }

  ghost predicate ReadInv(s: State, gen: nat, log: seq<Fetch>) {
    && gen <= s.changes && (forall f :: f in log ==> f.page == s.first || f.page == s.first + 1)
    && (s.changes == gen && s.first in s.marked ==> Guarded(s, s.first, log) && Guarded(s, s.first + 1, log))
  }

  /** No TLB entry of the current generation takes stores to a marked page. */
  predicate NoneStamped(s: State) {
    forall p :: p in s.stamped ==> s.stamped[p] <= s.changes && (s.stamped[p] == s.changes ==> p !in s.marked)
  }

  ghost predicate Inv(s: State) {
    && s.marked <= s.mem.Keys && NoneStamped(s)
    && match s.pc
       case Reading(_, gen, log) => ReadInv(s, gen, log)
       case MarkTail(_, gen, log) => ReadInv(s, gen, log)
       case CheckGen(_, gen, log) =>
         && ReadInv(s, gen, log)
         && (s.changes == gen && Crossed(s.first, log) ==> s.first + 1 in s.marked || s.first + 1 !in s.mem)
       case CheckFirst(_, log, moment) => s.first in s.marked ==> Faithful(log, moment)
       case CheckTail(_, log, moment) => Faithful(log, moment)
       case Returned(exit, _, log, moment) => exit == Verified ==> Faithful(log, moment)
       case _ => true
  }

  predicate ByOthers(step: Step) {
    step.Permit? || step.Hit? || step.Stamp? || step.Write? || step.Remap? || step.Unmap?
  }

  /** What the other threads do keeps what is known of a page, or moves `changes`. */
  lemma OthersKeepPage(s: State, step: Step, p: Page, log: seq<Fetch>)
    requires s.marked <= s.mem.Keys && NoneStamped(s) && Guarded(s, p, log) && Enabled(s, step) && ByOthers(step)
    ensures Next(s, step).changes == s.changes ==> Guarded(Next(s, step), p, log)
  {}

  lemma OthersKeepFirst(s: State, step: Step)
    requires s.marked <= s.mem.Keys && Enabled(s, step) && ByOthers(step)
    ensures var after := Next(s, step);
            && after.pc == s.pc && after.first == s.first && after.changes >= s.changes
            && after.marked <= s.marked && after.marked <= after.mem.Keys
            && (after.changes == s.changes ==> after.mem.Keys == s.mem.Keys && after.marked == s.marked)
  {}

  lemma OthersKeepInv(s: State, step: Step)
    requires Inv(s) && Enabled(s, step) && ByOthers(step)
    ensures Inv(Next(s, step))
  {
    StepKeepsStamps(s, step);
    OthersKeepFirst(s, step);
    match s.pc
    case Reading(_, gen, log) => OthersKeepReadInv(s, step, gen, log);
    case MarkTail(_, gen, log) => OthersKeepReadInv(s, step, gen, log);
    case CheckGen(_, gen, log) => OthersKeepReadInv(s, step, gen, log);
    case _ =>
  }

  lemma OthersKeepReadInv(s: State, step: Step, gen: nat, log: seq<Fetch>)
    requires s.marked <= s.mem.Keys && NoneStamped(s) && ReadInv(s, gen, log) && Enabled(s, step) && ByOthers(step)
    ensures ReadInv(Next(s, step), gen, log)
  {
    OthersKeepFirst(s, step);
    if Next(s, step).changes == gen && s.first in Next(s, step).marked {
      OthersKeepPage(s, step, s.first, log);
      OthersKeepPage(s, step, s.first + 1, log);
    }
  }

  /** What passing the check of `changes` proves. */
  lemma ChangesUnmoved(s: State, gen: nat, log: seq<Fetch>)
    requires s.marked <= s.mem.Keys && ReadInv(s, gen, log) && s.changes == gen && s.first in s.marked
    requires Crossed(s.first, log) ==> s.first + 1 in s.marked || s.first + 1 !in s.mem
    ensures Faithful(log, Moment(s.mem, s.dirtied))
  {
    forall f | f in log ensures f.page !in s.dirtied && Matches(f, s.mem) {
      assert f.page == s.first || f.page == s.first + 1;
    }
  }

  /** Marking a page turns every look at a TLB entry for it into a walk of the page table. */
  lemma {:induction false} StepKeepsStamps(s: State, step: Step)
    requires NoneStamped(s) && Enabled(s, step)
    ensures NoneStamped(Next(s, step))
  {}

  /** In every reachable state a store to a marked page has to walk the page table. */
  lemma {:induction false} MarkedPagesAreWalked(s: State, steps: seq<Step>, p: Page)
    requires Start(s) && RunEnabled(s, steps)
    ensures p in End(s, steps).marked ==> !Enabled(End(s, steps), Hit(p))
  {
    RunKeepsStamps(s, steps);
  }

  lemma {:induction false} RunKeepsStamps(s: State, steps: seq<Step>)
    requires NoneStamped(s) && RunEnabled(s, steps)
    ensures NoneStamped(End(s, steps))
    decreases |steps|
  {
    if steps != [] {
      StepKeepsStamps(s, steps[0]);
      RunKeepsStamps(Next(s, steps[0]), steps[1..]);
    }
  }

  lemma OwnStepKeepsInv(s: State, step: Step)
    requires Inv(s) && Allowed(s, step) && !ByOthers(step)
    ensures Inv(Next(s, step))
  {
    StepKeepsStamps(s, step);
    match step
    case LoadChanges =>
      if s.changes == s.pc.gen && s.first in s.marked { ChangesUnmoved(s, s.pc.gen, s.pc.log); }
    case FetchByte(p, off) => FetchKeepsInv(s, p, off);
    case _ =>
  }

  lemma FetchKeepsInv(s: State, p: Page, off: nat)
    requires Inv(s) && Allowed(s, FetchByte(p, off))
    ensures Inv(Next(s, FetchByte(p, off)))
  {
    var log := s.pc.log;
    var longer := log + [Fetch(p, off, s.mem[p][off])];
    assert forall f :: f in longer ==> f in log || f == Fetch(p, off, s.mem[p][off]);
  }

  lemma {:induction false} StepKeepsInv(s: State, step: Step)
    requires Inv(s) && Allowed(s, step)
    ensures Inv(Next(s, step))
  {
    if ByOthers(step) { OthersKeepInv(s, step); } else { OwnStepKeepsInv(s, step); }
  }

  // ---------------------------------------------------------------------------------------------
  // Runs
  // ---------------------------------------------------------------------------------------------

  predicate Start(s: State) {
    s.pc == MarkFirst(0) && s.marked <= s.mem.Keys && NoneStamped(s)
  }

  predicate RunEnabled(s: State, steps: seq<Step>)
    decreases |steps|
  {
    steps == [] || (Enabled(s, steps[0]) && RunEnabled(Next(s, steps[0]), steps[1..]))
  }

  predicate RunAllowed(s: State, steps: seq<Step>)
    decreases |steps|
  {
    steps == [] || (Allowed(s, steps[0]) && RunAllowed(Next(s, steps[0]), steps[1..]))
  }

  function End(s: State, steps: seq<Step>): State
    requires RunEnabled(s, steps)
    decreases |steps|
  {
    if steps == [] then s else End(Next(s, steps[0]), steps[1..])
  }

  lemma {:induction false} RunKeepsInv(s: State, steps: seq<Step>)
    requires Inv(s) && RunAllowed(s, steps)
    ensures RunEnabled(s, steps) && Inv(End(s, steps))
    decreases |steps|
  {
    if steps != [] {
      StepKeepsInv(s, steps[0]);
      RunKeepsInv(Next(s, steps[0]), steps[1..]);
    }
  }

  /** Main result: a block that comes out of the verified exit is what memory held throughout the read,
      on both pages, whatever the other threads did. */
  lemma {:induction false} VerifiedBlockIsFaithful(s: State, steps: seq<Step>)
    requires Start(s) && RunAllowed(s, steps)
    ensures RunEnabled(s, steps)
    ensures var end := End(s, steps);
            end.pc.Returned? && end.pc.exit == Verified ==> Faithful(end.pc.log, end.pc.moment)
  {
    RunKeepsInv(s, steps);
  }

  lemma {:induction false} RunAppend(s: State, a: seq<Step>, b: seq<Step>)
    requires RunEnabled(s, a) && RunEnabled(End(s, a), b)
    ensures RunEnabled(s, a + b) && End(s, a + b) == End(End(s, a), b)
    decreases |a|
  {
    if a == [] {
      assert a + b == b;
    } else {
      RunAppend(Next(s, a[0]), a[1..], b);
      assert (a + b)[1..] == a[1..] + b;
    }
  }

  lemma {:induction false} Then(s: State, steps: seq<Step>, step: Step) returns (longer: seq<Step>)
    requires RunEnabled(s, steps) && Enabled(End(s, steps), step)
    ensures RunEnabled(s, longer) && End(s, longer) == Next(End(s, steps), step) && longer == steps + [step]
  {
    longer := steps + [step];
    assert [step][1..] == [];
    RunAppend(s, steps, [step]);
  }

  /** A store that was permitted before the snapshot lands in the middle of the read. */
  lemma {:induction false} TornRead(s: State, p: Page) returns (steps: seq<Step>)
    requires s.pc.Reading? && s.pc.log == [] && s.pc.gen == s.changes && s.marked <= s.mem.Keys
    requires (p == s.first || p == s.first + 1) && p in s.marked && p in s.permitted && s.mem[p] != []
    ensures RunEnabled(s, steps) && NoSnapshot(steps)
    ensures var torn := End(s, steps);
            && torn.pc == Reading(s.pc.attempt, s.changes, [Fetch(p, 0, s.mem[p][0])])
            && torn.marked == s.marked && torn.changes == s.changes && torn.first == s.first
            && torn.mem.Keys == s.mem.Keys && p in torn.dirtied && !Matches(torn.pc.log[0], torn.mem)
  {
    steps := Then(s, [], FetchByte(p, 0));
    steps := Then(s, steps, Write(p, 0, s.mem[p][0] + 1));
  }

  predicate NoSnapshot(steps: seq<Step>) {
    forall i :: 0 <= i < |steps| ==> !steps[i].TakeSnapshot?
  }

  lemma {:induction false} NoSnapshotAllowed(s: State, steps: seq<Step>)
    requires RunEnabled(s, steps) && NoSnapshot(steps)
    ensures RunAllowed(s, steps)
    decreases |steps|
  {
    if steps != [] { NoSnapshotAllowed(Next(s, steps[0]), steps[1..]); }
  }

  /** The protocol's checks notice nothing when neither `changes` nor the marks moved. */
  lemma {:induction false} ChecksPass(s: State) returns (steps: seq<Step>)
    requires s.pc.Reading? && s.pc.gen == s.changes && s.first in s.marked && s.marked <= s.mem.Keys
    requires Crossed(s.first, s.pc.log) ==> s.first + 1 in s.marked
    ensures RunEnabled(s, steps) && NoSnapshot(steps)
    ensures End(s, steps).pc == Returned(Verified, s.pc.attempt, s.pc.log, Moment(s.mem, s.dirtied))
  {
    var loaded := GenPasses(s);
    var rest := MarksPass(End(s, loaded));
    RunAppend(s, loaded, rest);
    steps := loaded + rest;
  }

  lemma {:induction false} MarksPass(s: State) returns (steps: seq<Step>)
    requires s.pc.CheckFirst? && s.marked <= s.mem.Keys
    requires s.first in s.marked && (Crossed(s.first, s.pc.log) ==> s.first + 1 in s.marked)
    ensures RunEnabled(s, steps) && NoSnapshot(steps)
    ensures End(s, steps).pc == Returned(Verified, s.pc.attempt, s.pc.log, s.pc.moment)
  {
    steps := Then(s, [], FirstIntact);
    if Crossed(s.first, s.pc.log) { steps := Then(s, steps, TailIntact); }
  }

  lemma {:induction false} GenPasses(s: State) returns (steps: seq<Step>)
    requires s.pc.Reading? && s.pc.gen == s.changes && s.first in s.marked && s.marked <= s.mem.Keys
    requires Crossed(s.first, s.pc.log) ==> s.first + 1 in s.marked
    ensures RunEnabled(s, steps) && NoSnapshot(steps)
    ensures End(s, steps) == s.(pc := CheckFirst(s.pc.attempt, s.pc.log, Moment(s.mem, s.dirtied)))
  {
    steps := Then(s, [], EndOfBlock);
    if Crossed(s.first, s.pc.log) { steps := Then(s, steps, TryMarkTail); }
    steps := Then(s, steps, LoadChanges);
  }

  /** Whenever the assumption fails at a snapshot, some continuation returns, through the verified exit, a
      block that is not what memory held. */
  lemma {:induction false} WithoutQuietABlockCanBeTorn(s: State) returns (steps: seq<Step>)
    requires s.pc.Snapshot? && s.marked <= s.mem.Keys && (forall p :: p in s.mem ==> s.mem[p] != []) && !Quiet(s)
    ensures var read := Next(s, TakeSnapshot);
            && RunEnabled(read, steps) && NoSnapshot(steps)
            && var end := End(read, steps);
               && end.pc.Returned? && end.pc.exit == Verified && !Faithful(end.pc.log, end.pc.moment)
               && exists f :: f in end.pc.log && !Matches(f, end.pc.moment.mem)
  {
    var read := Next(s, TakeSnapshot);
    var p := if s.first in s.permitted then s.first else s.first + 1;
    var reading := TornRead(read, p);
    var torn := End(read, reading);
    assert torn.pc.log[0] in torn.pc.log;
    var rest := ChecksPass(torn);
    RunAppend(read, reading, rest);
    steps := reading + rest;
  }

  /** Whatever comes next, as long as it is allowed, a block out of the verified exit is faithful. */
  ghost predicate StaysFaithful(s: State) {
    forall steps :: RunAllowed(s, steps) && RunEnabled(s, steps) ==>
      var end := End(s, steps); end.pc.Returned? && end.pc.exit == Verified ==> Faithful(end.pc.log, end.pc.moment)
  }

  /** The assumption is exact: it holds at a snapshot if and only if no allowed continuation returns a torn
      block through the verified exit. */
  lemma {:induction false} QuietIsExact(s: State)
    requires Inv(s) && s.pc.Snapshot? && forall p :: p in s.mem ==> s.mem[p] != []
    ensures Quiet(s) <==> StaysFaithful(Next(s, TakeSnapshot))
  {
    var read := Next(s, TakeSnapshot);
    if Quiet(s) {
      StepKeepsInv(s, TakeSnapshot);
      forall steps | RunAllowed(read, steps) && RunEnabled(read, steps)
        ensures var end := End(read, steps); end.pc.Returned? && end.pc.exit == Verified ==> Faithful(end.pc.log, end.pc.moment)
      {
        RunKeepsInv(read, steps);
      }
    } else {
      var steps := WithoutQuietABlockCanBeTorn(s);
      NoSnapshotAllowed(read, steps);
      assert RunAllowed(read, steps) && RunEnabled(read, steps);
    }
  }

  // ---------------------------------------------------------------------------------------------
  // Progress
  // ---------------------------------------------------------------------------------------------

  /** Undisturbed, only marking the second page can cost an attempt, and only once. */
  predicate Undisturbed(s: State) {
    && s.marked <= s.mem.Keys
    && (!s.pc.MarkFirst? && !s.pc.Unprotected? && !s.pc.Returned? ==> s.first in s.marked)
    && match s.pc
       case MarkFirst(a) => Settled(s, a)
       case Snapshot(a) => Settled(s, a)
       case Reading(a, gen, log) => Settled(s, a) && gen == s.changes && Bounded(s, log)
       case MarkTail(a, gen, log) => Settled(s, a) && gen == s.changes && Bounded(s, log)
       case CheckGen(a, gen, log) => Settled(s, a) && gen == s.changes && TailCovered(s, log)
       case CheckFirst(a, log, _) => Settled(s, a) && TailCovered(s, log)
       case CheckTail(a, log, _) => Settled(s, a) && TailCovered(s, log) && Crossed(s.first, log)
       case Unprotected => s.first !in s.mem
       case Returned(exit, a, _, _) => exit != GaveUp && a <= 1
  }

  predicate Settled(s: State, attempt: nat) {
    attempt == 0 || (attempt == 1 && s.first in s.marked && s.first + 1 in s.marked)
  }

  predicate Bounded(s: State, log: seq<Fetch>) {
    forall f :: f in log ==> f.page == s.first || (f.page == s.first + 1 && f.page in s.mem)
  }

  predicate TailCovered(s: State, log: seq<Fetch>) {
    Crossed(s.first, log) ==> s.first + 1 in s.marked
  }

  lemma OwnStepUndisturbed(s: State, step: Step)
    requires Undisturbed(s) && Enabled(s, step) && !ByOthers(step)
    ensures Undisturbed(Next(s, step))
  {
    if step.FetchByte? {
      var longer := s.pc.log + [Fetch(step.page, step.offset, s.mem[step.page][step.offset])];
      assert forall f :: f in longer ==> f in s.pc.log || f.page == step.page;
    }
  }

  /** With no store and no remap in between, the block is accepted at the first attempt, or at the
      second when the first found its second page unmarked; the loop never gives up. */
  lemma {:induction false} AloneItNeverGivesUp(s: State, steps: seq<Step>)
    requires Undisturbed(s) && RunEnabled(s, steps) && forall step :: step in steps ==> !ByOthers(step)
    ensures Undisturbed(End(s, steps))
    decreases |steps|
  {
    if steps != [] {
      assert steps[0] in steps;
      OwnStepUndisturbed(s, steps[0]);
      assert forall step :: step in steps[1..] ==> step in steps;
      AloneItNeverGivesUp(Next(s, steps[0]), steps[1..]);
    }
  }

  lemma AloneTwoAttempts(s: State, steps: seq<Step>)
    requires Start(s) && RunEnabled(s, steps) && forall step :: step in steps ==> !ByOthers(step)
    ensures var end := End(s, steps); end.pc.Returned? ==> end.pc.exit != GaveUp && end.pc.attempt <= 1
    ensures var end := End(s, steps); end.pc.Returned? && end.pc.exit == Unmapped ==> s.first !in s.mem
  {
    AloneItNeverGivesUp(s, steps);
    AloneMemory(s, steps);
    AloneUnmapped(s, steps);
  }

  lemma {:induction false} AloneMemory(s: State, steps: seq<Step>)
    requires RunEnabled(s, steps) && forall step :: step in steps ==> !ByOthers(step)
    ensures End(s, steps).mem == s.mem && End(s, steps).first == s.first
    decreases |steps|
  {
    if steps != [] {
      assert steps[0] in steps;
      assert forall step :: step in steps[1..] ==> step in steps;
      AloneMemory(Next(s, steps[0]), steps[1..]);
    }
  }

  lemma {:induction false} AloneUnmapped(s: State, steps: seq<Step>)
    requires RunEnabled(s, steps) && forall step :: step in steps ==> !ByOthers(step)
    requires s.pc.Unprotected? || (s.pc.Returned? && s.pc.exit == Unmapped) ==> s.first !in s.mem
    ensures var end := End(s, steps); end.pc.Unprotected? || (end.pc.Returned? && end.pc.exit == Unmapped) ==> s.first !in s.mem
    decreases |steps|
  {
    if steps != [] {
      assert steps[0] in steps;
      assert forall step :: step in steps[1..] ==> step in steps;
      AloneUnmapped(Next(s, steps[0]), steps[1..]);
    }
  }

  // ---------------------------------------------------------------------------------------------
  // What the other threads may do
  // ---------------------------------------------------------------------------------------------

  /** A page that is not among those changed since the snapshot is as it was. */
  lemma {:induction false} OnlyDirtiedChange(s: State, steps: seq<Step>, p: Page)
    requires RunEnabled(s, steps) && NoSnapshot(steps)
    ensures var end := End(s, steps);
      s.dirtied <= end.dirtied && (p !in end.dirtied ==>
        (p in s.mem <==> p in end.mem) && (p in s.mem ==> end.mem[p] == s.mem[p]))
    decreases |steps|
  {
    if steps != [] {
      assert !steps[0].TakeSnapshot?;
      assert NoSnapshot(steps[1..]) by { forall i | 0 <= i < |steps[1..]| ensures !steps[1..][i].TakeSnapshot? { assert steps[1..][i] == steps[i + 1]; } }
      OnlyDirtiedChange(Next(s, steps[0]), steps[1..], p);
    }
  }

  /** One byte differs, and is v now. */
  predicate StoresByte(was: map<Page, seq<Byte>>, now: map<Page, seq<Byte>>, p: Page, off: nat, v: Byte) {
    && p in was && now.Keys == was.Keys && (forall q :: q in was && q != p ==> now[q] == was[q])
    && |now[p]| == |was[p]| && off < |now[p]| && now[p][off] == v
    && (forall i :: 0 <= i < |was[p]| && i != off ==> now[p][i] == was[p][i])
  }

  /** At any moment the others may map a page with any bytes, take it away, or store any byte, and each takes the
      mark unless the store goes by way of a TLB. */
  lemma {:induction false} OthersMayDoAnything(s: State, p: Page, bytes: seq<Byte>, off: nat, v: Byte)
    ensures var steps := [Remap(p, bytes)]; RunEnabled(s, steps) && End(s, steps).mem == s.mem[p := bytes] && p !in End(s, steps).marked
    ensures var steps := [Unmap(p)]; RunEnabled(s, steps) && End(s, steps).mem == s.mem - {p} && p !in End(s, steps).marked
    ensures p in s.mem && off < |s.mem[p]| ==>
      var steps := [Permit(p), Write(p, off, v)];
      RunEnabled(s, steps) && StoresByte(s.mem, End(s, steps).mem, p, off, v) && p !in End(s, steps).marked
  {
    var remap := Then(s, [], Remap(p, bytes));
    var unmap := Then(s, [], Unmap(p));
    if p in s.mem && off < |s.mem[p]| {
      var look := Then(s, [], Permit(p));
      var store := Then(s, look, Write(p, off, v));
      assert store == [Permit(p), Write(p, off, v)];
    }
  }

  // ---------------------------------------------------------------------------------------------
  // Giving up
  // ---------------------------------------------------------------------------------------------

  /** How often a block was compiled. */
  function Compiles(steps: seq<Step>): nat {
    if steps == [] then 0 else (if steps[0].TakeSnapshot? then 1 else 0) + Compiles(steps[1..])
  }

  predicate Counted(s: State, compiled: nat) {
    match s.pc
    case MarkFirst(a) => a == compiled
    case Snapshot(a) => a == compiled
    case Reading(a, _, _) => a + 1 == compiled
    case MarkTail(a, _, _) => a + 1 == compiled
    case CheckGen(a, _, _) => a + 1 == compiled
    case CheckFirst(a, _, _) => a + 1 == compiled
    case CheckTail(a, _, _) => a + 1 == compiled
    case Unprotected => true
    case Returned(exit, a, _, _) => exit != Unmapped ==> a + 1 == compiled
  }

  lemma {:induction false} RunCounts(s: State, steps: seq<Step>, compiled: nat)
    requires Counted(s, compiled) && RunEnabled(s, steps)
    ensures Counted(End(s, steps), compiled + Compiles(steps))
    decreases |steps|
  {
    if steps != [] {
      var step := steps[0];
      assert Counted(Next(s, step), compiled + if step.TakeSnapshot? then 1 else 0);
      RunCounts(Next(s, step), steps[1..], compiled + if step.TakeSnapshot? then 1 else 0);
    }
  }

  predicate Intact(s: State, p: Page) { p in s.mem && p in s.marked }

  /** In any run a block that fails its check is thrown away if it is one of the first sixteen compiled and
      accepted from the seventeenth on, and a block that is accepted unverified has failed its check. */
  lemma {:induction false} GivesUpExactly(s: State, steps: seq<Step>, step: Step)
    requires Start(s) && RunEnabled(s, steps) && Enabled(End(s, steps), step)
    ensures var was, now := End(s, steps), Next(End(s, steps), step);
      && (step in {LoadChanges, FirstIntact, TailIntact} && now.pc.MarkFirst? ==> Compiles(steps) <= 16)
      && (!was.pc.Returned? && now.pc.Returned? && now.pc.exit == GaveUp ==>
           Compiles(steps) >= 17 && step in {LoadChanges, FirstIntact, TailIntact}
           && ((was.pc.CheckGen? && was.changes != was.pc.gen) || !Intact(was, was.first) || !Intact(was, was.first + 1)))
  {
    RunCounts(s, steps, 0);
  }
}
