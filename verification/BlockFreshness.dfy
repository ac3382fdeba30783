/**
 Are live blocks up to date? Stores (kernel/memory.c, mem_ptr) against compiling and inserting a block
 (asbestos/asbestos.c). A store through mem_ptr is three steps: it looks at the page's lists of blocks and
 invalidates what is there, it clears the page's mark and bumps `changes`, and it writes. The look takes the
 lock of the index only if a list of the page's bucket was ever used. A store through the TLB looks at the
 mark only. Compiling holds that lock from before the mark to after the insertion.
 */
module BlockFreshness {
  import C = CompileProtocol

  const PAGE_HASH_SIZE: nat := 1024

  type Page = C.Page

  /** The bytes a block was decoded from stand for the block. */
  type Block = seq<C.Fetch>

  datatype Compiler = Free | Compiling | Checked(block: Block)

  /** `looked` are the stores between look and clear, `permitted` those before their write. */
  datatype State = State(mem: map<Page, seq<C.Byte>>, marked: set<Page>, used: set<nat>, live: set<Block>,
                         looked: multiset<Page>, permitted: multiset<Page>, compiler: Compiler)

  datatype Step =
    | Look(page: Page)
    | Clear(page: Page)
    | Hit(page: Page)                                   // through a writable TLB entry
    | Write(page: Page, offset: nat, byte: C.Byte)
    | Replace(page: Page, bytes: seq<C.Byte>)           // mapped anew, after the look of pt_unmap_always
    | Remove(page: Page)
    | Begin                                             // takes the lock of the index
    | MarkPage(page: Page)
    | Check(block: Block)                               // the verified exit of the compile protocol
    | Insert
    | GiveBack                                          // no block; the lock is dropped

  function Bucket(page: Page): nat { page % PAGE_HASH_SIZE }

  predicate Listed(block: Block, bucket: nat) {
    exists f :: f in block && Bucket(f.page) == bucket
  }

  function Buckets(block: Block): set<nat> {
    set f | f in block :: Bucket(f.page)
  }

  predicate Enabled(s: State, step: Step) {
    match step
    case Look(p) => Bucket(p) in s.used ==> s.compiler == Free
    case Clear(p) => p in s.looked
    case Hit(p) => p !in s.marked
    case Write(p, off, _) => p in s.permitted && p in s.mem && off < |s.mem[p]|
    case Replace(p, _) => p in s.looked
    case Remove(p) => p in s.looked
    case Begin => s.compiler == Free
    case MarkPage(p) => s.compiler == Compiling && p in s.mem
    case Check(block) =>
      s.compiler == Compiling && block != [] &&
      forall f :: f in block ==> f.page in s.marked && f.page !in s.permitted && C.Matches(f, s.mem)
    case Insert => s.compiler.Checked?
    case GiveBack => s.compiler == Compiling
  }

  function Next(s: State, step: Step): State
    requires Enabled(s, step)
  {
    match step
    case Look(p) =>
      s.(looked := s.looked + multiset{p},
         live := if Bucket(p) in s.used then set b | b in s.live && !Listed(b, Bucket(p)) else s.live)
    case Clear(p) =>
      s.(looked := s.looked - multiset{p}, permitted := s.permitted + multiset{p}, marked := s.marked - {p})
    case Hit(p) => s.(permitted := s.permitted + multiset{p})
    case Write(p, off, v) => s.(permitted := s.permitted - multiset{p}, mem := s.mem[p := C.Put(s.mem[p], off, v)])
    case Replace(p, bytes) => s.(looked := s.looked - multiset{p}, mem := s.mem[p := bytes], marked := s.marked - {p})
    case Remove(p) => s.(looked := s.looked - multiset{p}, mem := s.mem - {p}, marked := s.marked - {p})
    case Begin => s.(compiler := Compiling)
    case MarkPage(p) => s.(marked := s.marked + {p})
    case Check(block) => s.(compiler := Checked(block))
    case Insert =>
      s.(live := s.live + {s.compiler.block}, used := s.used + Buckets(s.compiler.block), compiler := Free)
    case GiveBack => s.(compiler := Free)
  }

  /** Every live block is what memory holds. */
  ghost predicate Fresh(s: State) {
    forall b, f :: b in s.live && f in b ==> C.Matches(f, s.mem)
  }

  /** The block is inserted while its pages are still marked and no store to them is past its look. */
  ghost predicate Timely(s: State, step: Step) {
    step.Insert? && s.compiler.Checked? ==>
      forall f :: f in s.compiler.block ==> f.page in s.marked && f.page !in s.looked
  }

  // ---------------------------------------------------------------------------------------------
  // The invariant
  // ---------------------------------------------------------------------------------------------

  /** Whoever stores to the page from now on will find the block. */
  predicate Covered(s: State, f: C.Fetch) {
    && f.page in s.marked && f.page !in s.looked && f.page !in s.permitted
    && Bucket(f.page) in s.used && C.Matches(f, s.mem)
  }

  /** As long as the mark stays, the block that passed the check is what memory holds. */
  predicate StillGood(s: State, f: C.Fetch) {
    f.page in s.marked ==> f.page !in s.permitted && C.Matches(f, s.mem)
  }

  ghost predicate Inv(s: State) {
    && (forall b, f :: b in s.live && f in b ==> Covered(s, f))
    && (s.compiler.Checked? ==> s.compiler.block != [] && forall f :: f in s.compiler.block ==> StillGood(s, f))
  }

  lemma {:induction false} StoreKeepsCovered(s: State, step: Step, b: Block, f: C.Fetch)
    requires Enabled(s, step) && b in Next(s, step).live && b in s.live && f in b && Covered(s, f)
    requires !step.Insert?
    ensures Covered(Next(s, step), f)
  {
    if step.Look? && step.page == f.page { assert Listed(b, Bucket(step.page)); }
  }

  lemma {:induction false} StoreKeepsGood(s: State, step: Step, f: C.Fetch)
    requires Enabled(s, step) && s.compiler.Checked? && !step.Insert? && StillGood(s, f)
    ensures StillGood(Next(s, step), f)
  {}

  lemma {:induction false} StepKeepsInv(s: State, step: Step)
    requires Inv(s) && Enabled(s, step) && Timely(s, step)
    ensures Inv(Next(s, step))
  {
    var after := Next(s, step);
    if step.Insert? {
      forall b, f | b in after.live && f in b ensures Covered(after, f) {
        if b == s.compiler.block {
          assert StillGood(s, f) && Bucket(f.page) in Buckets(b);
        } else {
          assert Covered(s, f);
        }
      }
    } else {
      forall b, f | b in after.live && f in b ensures Covered(after, f) { StoreKeepsCovered(s, step, b, f); }
      if s.compiler.Checked? {
        forall f | f in s.compiler.block ensures StillGood(after, f) { StoreKeepsGood(s, step, f); }
      }
    }
  }

  // ---------------------------------------------------------------------------------------------
  // Runs
  // ---------------------------------------------------------------------------------------------

  predicate Start(s: State) {
    s.live == {} && s.compiler == Free
  }

  predicate RunEnabled(s: State, steps: seq<Step>)
    decreases |steps|
  {
    steps == [] || (Enabled(s, steps[0]) && RunEnabled(Next(s, steps[0]), steps[1..]))
  }

  ghost predicate RunTimely(s: State, steps: seq<Step>)
    requires RunEnabled(s, steps)
    decreases |steps|
  {
    steps == [] || (Timely(s, steps[0]) && RunTimely(Next(s, steps[0]), steps[1..]))
  }

  function End(s: State, steps: seq<Step>): State
    requires RunEnabled(s, steps)
    decreases |steps|
  {
    if steps == [] then s else End(Next(s, steps[0]), steps[1..])
  }

  lemma {:induction false} RunKeepsInv(s: State, steps: seq<Step>)
    requires Inv(s) && RunEnabled(s, steps) && RunTimely(s, steps)
    ensures Inv(End(s, steps))
    decreases |steps|
  {
    if steps != [] {
      StepKeepsInv(s, steps[0]);
      RunKeepsInv(Next(s, steps[0]), steps[1..]);
    }
  }

  /** Main result: when insertions are timely, every live block is what memory holds, at every moment and
      whatever is stored or mapped. */
  lemma {:induction false} LiveBlocksAreFresh(s: State, steps: seq<Step>)
    requires Start(s) && RunEnabled(s, steps) && RunTimely(s, steps)
    ensures Fresh(End(s, steps))
  {
    RunKeepsInv(s, steps);
    var end := End(s, steps);
    forall b, f | b in end.live && f in b ensures C.Matches(f, end.mem) { assert Covered(end, f); }
  }

  // ---------------------------------------------------------------------------------------------
  // The condition is exact
  // ---------------------------------------------------------------------------------------------

  lemma {:induction false} First(s: State, step: Step, rest: seq<Step>) returns (all: seq<Step>)
    requires Enabled(s, step) && RunEnabled(Next(s, step), rest)
    ensures RunEnabled(s, all) && End(s, all) == End(Next(s, step), rest) && all == [step] + rest
    ensures Timely(s, step) && RunTimely(Next(s, step), rest) ==> RunTimely(s, all)
  {
    all := [step] + rest;
    assert all[0] == step && all[1..] == rest;
  }

  /** The write of a permitted store, onto a byte the block was decoded from. */
  lemma {:induction false} WriteSpoils(s: State, b: Block, f: C.Fetch) returns (more: seq<Step>)
    requires b in s.live && f in b && f.page in s.permitted && C.Matches(f, s.mem)
    ensures RunEnabled(s, more) && RunTimely(s, more) && !Fresh(End(s, more))
  {
    var write := Write(f.page, f.offset, f.byte + 1);
    more := First(s, write, []);
    assert !C.Matches(f, Next(s, write).mem);
  }

  lemma {:induction false} LateInsertSpoils(s: State) returns (more: seq<Step>)
    requires Inv(s) && s.compiler.Checked? && !Timely(s, Insert)
    ensures var after := Next(s, Insert); RunEnabled(after, more) && RunTimely(after, more) && !Fresh(End(after, more))
  {
    var b, after := s.compiler.block, Next(s, Insert);
    var f :| f in b && !(f.page in s.marked && f.page !in s.looked);
    assert b in after.live && StillGood(s, f);
    if !C.Matches(f, s.mem) {
      more := [];
    } else {
      var step := if f.page in s.looked then Clear(f.page) else Hit(f.page);
      var rest := WriteSpoils(Next(after, step), b, f);
      more := First(after, step, rest);
    }
  }

  ghost predicate StaysFresh(s: State) {
    forall more :: RunEnabled(s, more) && RunTimely(s, more) ==> Fresh(End(s, more))
  }

  /** Exactly when an insertion is safe: when its block's pages are still marked and no store to them is
      between its look and its clearing of the mark, and never otherwise. */
  lemma {:induction false} TimelyIsExact(s: State)
    requires Inv(s) && s.compiler.Checked?
    ensures Timely(s, Insert) <==> StaysFresh(Next(s, Insert))
  {
    var after := Next(s, Insert);
    if Timely(s, Insert) {
      StepKeepsInv(s, Insert);
      forall more | RunEnabled(after, more) && RunTimely(after, more) ensures Fresh(End(after, more)) {
        RunKeepsInv(after, more);
        forall b, f | b in End(after, more).live && f in b ensures C.Matches(f, End(after, more).mem) {
          assert Covered(End(after, more), f);
        }
      }
    } else {
      var more := LateInsertSpoils(s);
      assert RunEnabled(after, more) && RunTimely(after, more);
    }
  }

  // ---------------------------------------------------------------------------------------------
  // Two runs
  // ---------------------------------------------------------------------------------------------

  lemma {:induction false} RunAppend(s: State, a: seq<Step>, b: seq<Step>)
    requires RunEnabled(s, a) && RunEnabled(End(s, a), b)
    ensures RunEnabled(s, a + b) && End(s, a + b) == End(End(s, a), b)
    decreases |a|
  {
    if a == [] {
      assert a + b == b;
    } else {
      RunAppend(Next(s, a[0]), a[1..], b);
      assert (a + b)[0] == a[0] && (a + b)[1..] == a[1..] + b;
    }
  }

  /** A block decoded from the first byte of the page. */
  function OneByte(s: State, p: Page): Block
    requires p in s.mem && s.mem[p] != []
  {
    [C.Fetch(p, 0, s.mem[p][0])]
  }

  /** From the lock to the check. */
  lemma {:induction false} CheckRun(s: State, p: Page)
    requires s.compiler == Free && p in s.mem && s.mem[p] != [] && p !in s.permitted
    ensures var steps := [Begin, MarkPage(p), Check(OneByte(s, p))];
            RunEnabled(s, steps) && End(s, steps) == s.(marked := s.marked + {p}, compiler := Checked(OneByte(s, p)))
  {
    var begun := Next(s, Begin);
    var marked := Next(begun, MarkPage(p));
    var tail := First(marked, Check(OneByte(s, p)), []);
    tail := First(begun, MarkPage(p), tail);
    tail := First(s, Begin, tail);
    assert tail == [Begin, MarkPage(p), Check(OneByte(s, p))];
  }

  /** The insertion, and then the rest of a store that is past its look. */
  lemma {:induction false} InsertThenStore(s: State, p: Page) returns (steps: seq<Step>)
    requires p in s.mem && s.mem[p] != [] && p in s.looked && s.compiler == Checked(OneByte(s, p))
    ensures RunEnabled(s, steps) && [Insert] <= steps
    ensures StaleForGood(End(s, steps), p, OneByte(s, p), s.looked - multiset{p}, s.permitted)
  {
    var b, inserted := OneByte(s, p), Next(s, Insert);
    var cleared := Next(inserted, Clear(p));
    steps := First(cleared, Write(p, 0, b[0].byte + 1), []);
    steps := First(inserted, Clear(p), steps);
    steps := First(s, Insert, steps);
    assert s.permitted + multiset{p} - multiset{p} == s.permitted;
  }

  /** The block is live and not what memory holds, its page is not marked, and no more stores are under way
      than given. */
  predicate StaleForGood(s: State, p: Page, b: Block, looked: multiset<Page>, permitted: multiset<Page>) {
    b in s.live && b != [] && !C.Matches(b[0], s.mem) && p !in s.marked && s.looked == looked && s.permitted == permitted
  }

  /** A store whose look finds nothing, because the block is not there yet, and whose write comes after the
      insertion: the block stays, out of date, and the mark is gone. However often the bucket was used. */
  lemma {:induction false} LookBeforeCompile(s: State, p: Page) returns (steps: seq<Step>)
    requires s.compiler == Free && p in s.mem && s.mem[p] != [] && p !in s.permitted
    ensures RunEnabled(s, steps) && StaleForGood(End(s, steps), p, OneByte(s, p), s.looked, s.permitted)
  {
    var looked := Next(s, Look(p));
    var compile := [Begin, MarkPage(p), Check(OneByte(s, p))];
    CheckRun(looked, p);
    var rest := InsertThenStore(End(looked, compile), p);
    RunAppend(looked, compile, rest);
    steps := First(s, Look(p), compile + rest);
    assert s.looked + multiset{p} - multiset{p} == s.looked;
  }

  /** And when a page's bucket is used for the first time the look need not wait for the lock: it can fall
      between the check and the insertion. */
  lemma {:induction false} LookBeforeFirstInsert(s: State, p: Page) returns (steps: seq<Step>)
    requires s.compiler == Free && p in s.mem && s.mem[p] != [] && p !in s.permitted && Bucket(p) !in s.used
    ensures RunEnabled(s, steps) && [Begin, MarkPage(p), Check(OneByte(s, p)), Look(p), Insert] <= steps
    ensures StaleForGood(End(s, steps), p, OneByte(s, p), s.looked, s.permitted)
  {
    var compile := [Begin, MarkPage(p), Check(OneByte(s, p))];
    CheckRun(s, p);
    var checked := End(s, compile);
    var store := InsertThenStore(Next(checked, Look(p)), p);
    var rest := First(checked, Look(p), store);
    RunAppend(s, compile, rest);
    steps := compile + rest;
    assert s.looked + multiset{p} - multiset{p} == s.looked;
  }

  // ---------------------------------------------------------------------------------------------
  // What may happen
  // ---------------------------------------------------------------------------------------------

  lemma {:induction false} TwoSteps(s: State, a: Step, b: Step)
    requires Enabled(s, a) && Enabled(Next(s, a), b)
    ensures RunEnabled(s, [a, b]) && End(s, [a, b]) == Next(Next(s, a), b)
  {
    assert [a, b][1..] == [b] && [b][1..] == [];
    assert End(Next(Next(s, a), b), []) == Next(Next(s, a), b);
  }

  /** While no compilation holds the lock any page may be mapped with any bytes or taken away, and any byte
      stored. What looks first leaves no live block of the page. */
  lemma {:induction false} AnythingMayHappen(s: State, p: Page, bytes: seq<C.Byte>, off: nat, v: C.Byte)
    requires s.compiler == Free
    ensures var run := [Look(p), Replace(p, bytes)];
      RunEnabled(s, run) && End(s, run).mem == s.mem[p := bytes] && p !in End(s, run).marked && End(s, run).looked == s.looked
    ensures var run := [Look(p), Remove(p)];
      RunEnabled(s, run) && End(s, run).mem == s.mem - {p} && p !in End(s, run).marked && End(s, run).looked == s.looked
    ensures p in s.mem && off < |s.mem[p]| ==> var run := [Look(p), Clear(p)];
      && RunEnabled(s, run) && p !in End(s, run).marked && Enabled(End(s, run), Write(p, off, v))
      && C.StoresByte(s.mem, Next(End(s, run), Write(p, off, v)).mem, p, off, v)
    ensures Bucket(p) in s.used ==> forall b, f :: b in Next(s, Look(p)).live && f in b ==> f.page != p
  {
    TwoSteps(s, Look(p), Replace(p, bytes));
    TwoSteps(s, Look(p), Remove(p));
    TwoSteps(s, Look(p), Clear(p));
  }
}
