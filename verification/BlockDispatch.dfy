/** Dispatch executes the code of the address that was asked for, in every run. */
module BlockDispatch {
  import opened BlockCache
  import opened BlockCacheSafety

  // ---------------------------------------------------------------------------------------------
  // What is asked for and what is in hand
  // ---------------------------------------------------------------------------------------------

  /** The address thread `t` asked for last, from its steps alone. */
  function Asked(run: seq<Step>, t: Tid, before: Option<Addr>): Option<Addr>
    decreases |run|
  {
    if run == [] then before
    else
      Asked(run[1..], t, match run[0]
                         case ByThread(u, LoopCheck(ip)) => if u == t then Some(ip) else before
                         case _ => before)
  }

  /** The block a thread has in hand, between finding it and executing it. */
  function InHand(pc: Pc): Option<Id> {
    if pc.Have? || pc.ChainTry? || pc.ChainLocked? || pc.Ready? then Some(pc.b) else None
  }

  predicate TranslatedFor(blocks: map<Id, Block>, b: Id, asked: Option<Addr>) {
    b in blocks && Some(blocks[b].addr) == asked
  }

  /** A patched exit leads to the block at the address it holds when it is not patched, and an exit
      that is not patched holds that address. */
  ghost predicate ExitsRight(blocks: map<Id, Block>) {
    forall b, i: nat :: b in blocks && i < |blocks[b].slots| && i < |blocks[b].oldSlots| ==>
      ExitRight(blocks, blocks[b].slots[i], blocks[b].oldSlots[i])
  }

  predicate ExitRight(blocks: map<Id, Block>, slot: Slot, oldSlot: Slot) {
    if slot.Code? then slot.target in blocks && oldSlot == Guest(blocks[slot.target].addr) else slot == oldSlot
  }

  // ---------------------------------------------------------------------------------------------
  // Preservation
  // ---------------------------------------------------------------------------------------------

  /** The address a program counter carries from the loop's check until the block is executed. */
  function PcAddr(pc: Pc): Option<Addr> {
    if pc.LoopStale? || pc.Dispatch? || pc.Miss? || pc.MissLocked? || InHand(pc).Some? then Some(pc.ip) else None
  }

  predicate HandRight(blocks: map<Id, Block>, pc: Pc, asked: Option<Addr>) {
    && (PcAddr(pc).Some? ==> PcAddr(pc) == asked)
    && (InHand(pc).Some? ==> TranslatedFor(blocks, InHand(pc).value, asked))
  }

  /** Blocks are only added; address and exits as translated stay. */
  predicate Grows(blocks: map<Id, Block>, blocks': map<Id, Block>) {
    forall b :: b in blocks ==>
      b in blocks' && blocks'[b].addr == blocks[b].addr && blocks'[b].oldSlots == blocks[b].oldSlots
  }

  function AskedBy(a: Action, before: Option<Addr>): Option<Addr> {
    match a case LoopCheck(ip) => Some(ip) case _ => before
  }

  /** Steps on the way from asking to executing. */
  predicate DispatchStep(a: Action) {
    a.LoopCheck? || a.LoopClear? || a.Hit? || a.CacheMiss? || a.TakeLock? || a.LookupFinds? || a.CompileInserts?
    || a.SkipChain? || a.ChainCheck? || a.ChainTryLock? || a.ChainTryFails? || a.ChainPatch? || a.FiberEnter?
  }

  lemma {:induction false} StepHand(sh: Shared, t: Tid, th: Thread, a: Action, asked: Option<Addr>)
    requires !IsEnvironment(a) && Enabled(sh, t, th, a) && HandRight(sh.blocks, th.pc, asked)
    ensures var (sh', th') := Next(sh, t, th, a); HandRight(sh'.blocks, th'.pc, AskedBy(a, asked))
    ensures a.FiberEnter? ==> Next(sh, t, th, a).1.pc.Exec? && TranslatedFor(sh.blocks, Next(sh, t, th, a).1.pc.b, asked)
  {
    if DispatchStep(a) {
      DispatchHand(sh, t, th, a, asked);
    } else {
      OtherHand(sh, t, th, a);
    }
  }

  lemma {:induction false} DispatchHand(sh: Shared, t: Tid, th: Thread, a: Action, asked: Option<Addr>)
    requires DispatchStep(a) && Enabled(sh, t, th, a) && HandRight(sh.blocks, th.pc, asked)
    ensures var (sh', th') := Next(sh, t, th, a); HandRight(sh'.blocks, th'.pc, AskedBy(a, asked))
    ensures a.FiberEnter? ==> Next(sh, t, th, a).1.pc.Exec? && TranslatedFor(sh.blocks, Next(sh, t, th, a).1.pc.b, asked)
  {}

  lemma {:induction false} OtherHand(sh: Shared, t: Tid, th: Thread, a: Action)
    requires !IsEnvironment(a) && !DispatchStep(a) && Enabled(sh, t, th, a)
    ensures !a.LoopCheck? && PcAddr(Next(sh, t, th, a).1.pc).None?
  {}

  lemma {:induction false} BlocksStay(sh: Shared, t: Tid, th: Thread, a: Action)
    requires !IsEnvironment(a) && Enabled(sh, t, th, a) && !a.CompileInserts? && !a.ChainPatch?
    ensures Next(sh, t, th, a).0.blocks == sh.blocks
  {}

  lemma {:induction false} StepExits(sh: Shared, t: Tid, th: Thread, a: Action)
    requires !IsEnvironment(a) && Enabled(sh, t, th, a) && Partition(sh) && ExitsRight(sh.blocks)
    ensures ExitsRight(Next(sh, t, th, a).0.blocks)
  {
    if a.CompileInserts? {
      InsertedExits(sh.blocks, a.id, Block(th.pc.ip, a.exits, a.exits));
    } else if a.ChainPatch? {
      if th.last.Some? && th.last.value in sh.blocks && th.pc.b in sh.blocks {
        PatchedBlockExits(sh.blocks, th.last.value, th.pc.b);
      }
    } else {
      BlocksStay(sh, t, th, a);
    }
  }

  lemma {:induction false} InsertedExits(blocks: map<Id, Block>, id: Id, blk: Block)
    requires ExitsRight(blocks) && id !in blocks && blk.slots == blk.oldSlots && ValidExits(blk.slots)
    ensures ExitsRight(blocks[id := blk])
  {}

  lemma {:induction false} PatchedBlockExits(blocks: map<Id, Block>, from: Id, to: Id)
    requires ExitsRight(blocks) && from in blocks && to in blocks
    ensures ExitsRight(blocks[from := PatchExits(blocks[from], to, blocks[to].addr)])
  {}

  lemma {:induction false} RestoredExits(blocks: map<Id, Block>, p: Id, i: nat)
    requires ExitsRight(blocks) && p in blocks && i < |blocks[p].slots| && i < |blocks[p].oldSlots|
    requires !blocks[p].oldSlots[i].Code?
    ensures ExitsRight(blocks[p := blocks[p].(slots := blocks[p].slots[i := blocks[p].oldSlots[i]])])
  {}

  lemma {:induction false} EnvironmentExits(sh: Shared, a: Action)
    requires IsEnvironment(a) && EnabledEnv(sh, a) && Partition(sh) && ExitsRight(sh.blocks)
    ensures ExitsRight(NextEnv(sh, a).blocks)
  {
    if a.InvalidateRestore? { RestoredExits(sh.blocks, a.p, a.i); }
  }

  /** No step takes a block out of the table or gives it another address. */
  lemma {:induction false} EnvironmentGrows(sh: Shared, a: Action)
    requires IsEnvironment(a) && EnabledEnv(sh, a)
    ensures Grows(sh.blocks, NextEnv(sh, a).blocks)
  {}

  lemma {:induction false} HandStays(blocks: map<Id, Block>, blocks': map<Id, Block>, pc: Pc, asked: Option<Addr>)
    requires Grows(blocks, blocks') && HandRight(blocks, pc, asked)
    ensures HandRight(blocks', pc, asked)
  {}

  lemma {:induction false} StepGrows(sh: Shared, t: Tid, th: Thread, a: Action)
    requires !IsEnvironment(a) && Enabled(sh, t, th, a)
    ensures Grows(sh.blocks, Next(sh, t, th, a).0.blocks)
  {
    if !a.CompileInserts? && !a.ChainPatch? { BlocksStay(sh, t, th, a); }
  }

  lemma {:induction false} StepKeepsAddresses(s: State, st: Step, t: Tid, asked: Option<Addr>)
    requires Inv(s) && CanStep(s, st) && t in s.threads
    requires ExitsRight(s.sh.blocks) && HandRight(s.sh.blocks, s.threads[t].pc, asked)
    ensures ExitsRight(DoStep(s, st).sh.blocks) && t in DoStep(s, st).threads
    ensures HandRight(DoStep(s, st).sh.blocks, DoStep(s, st).threads[t].pc, Asked([st], t, asked))
  {
    match st {
      case ByThread(u, a) =>
        StepExits(s.sh, u, s.threads[u], a);
        if u == t {
          StepHand(s.sh, t, s.threads[t], a, asked);
        } else {
          StepGrows(s.sh, u, s.threads[u], a);
          HandStays(s.sh.blocks, DoStep(s, st).sh.blocks, s.threads[t].pc, asked);
        }
      case ByEnvironment(a) =>
        EnvironmentExits(s.sh, a);
        EnvironmentGrows(s.sh, a);
        HandStays(s.sh.blocks, DoStep(s, st).sh.blocks, s.threads[t].pc, asked);
    }
  }

  lemma {:induction false} AskedStep(run: seq<Step>, t: Tid, before: Option<Addr>)
    requires run != []
    ensures Asked(run, t, before) == Asked(run[1..], t, Asked([run[0]], t, before))
  {
    assert [run[0]][1..] == [];
  }

  lemma {:induction false} RunKeepsAddresses(s: State, run: seq<Step>, t: Tid, asked: Option<Addr>)
    requires Inv(s) && IsRun(s, run) && t in s.threads
    requires ExitsRight(s.sh.blocks) && HandRight(s.sh.blocks, s.threads[t].pc, asked)
    ensures var e := EndState(s, run);
      && t in e.threads && ExitsRight(e.sh.blocks) && HandRight(e.sh.blocks, e.threads[t].pc, Asked(run, t, asked))
      && Inv(e)
    ensures run != [] && run[|run| - 1] == ByThread(t, FiberEnter) ==>
      var e := EndState(s, run);
      e.threads[t].pc.Exec? && TranslatedFor(e.sh.blocks, e.threads[t].pc.b, Asked(run, t, asked))
    decreases |run|
  {
    if run != [] {
      var next := DoStep(s, run[0]);
      StepKeepsInv(s, run[0]);
      StepKeepsAddresses(s, run[0], t, asked);
      AskedStep(run, t, asked);
      RunKeepsAddresses(next, run[1..], t, Asked([run[0]], t, asked));
      if run[0] == ByThread(t, FiberEnter) && |run| == 1 {
        StepHand(s.sh, t, s.threads[t], FiberEnter, asked);
      }
    }
  }

  // ---------------------------------------------------------------------------------------------
  // Results
  // ---------------------------------------------------------------------------------------------

  /** In every reachable state the block a thread has in hand, found in its cache, in the hash or
      compiled, was translated for the address the thread asked for last, and the one a thread goes
      on to execute is such a block. */
  lemma {:induction false} DispatchRunsWhatWasAsked(s: State, run: seq<Step>, t: Tid)
    requires Initial(s) && IsRun(s, run) && t in s.threads
    ensures var e := EndState(s, run);
      && t in e.threads
      && (InHand(e.threads[t].pc).Some? ==> TranslatedFor(e.sh.blocks, InHand(e.threads[t].pc).value, Asked(run, t, None)))
    ensures run != [] && run[|run| - 1] == ByThread(t, FiberEnter) ==>
      var e := EndState(s, run);
      e.threads[t].pc.Exec? && TranslatedFor(e.sh.blocks, e.threads[t].pc.b, Asked(run, t, None))
  {
    RunKeepsAddresses(s, run, t, None);
  }

  /** In every reachable state a patched exit stands where the translation held the guest address of
      the block it leads to; every other exit holds what the translation put there. */
  lemma {:induction false} ChainsLeadWhereTheGuestWent(s: State, run: seq<Step>, b: Id, i: nat)
    requires Initial(s) && IsRun(s, run) && b in EndState(s, run).sh.blocks && i < 2
    ensures var blocks := EndState(s, run).sh.blocks;
      && |blocks[b].slots| == |blocks[b].oldSlots| == 2
      && (if blocks[b].slots[i].Code?
          then blocks[b].slots[i].target in blocks
               && blocks[b].oldSlots[i] == Guest(blocks[blocks[b].slots[i].target].addr)
          else blocks[b].slots[i] == blocks[b].oldSlots[i])
  {
    ReachedExits(s, run);
    ReachedInv(s, run);
    var blocks := EndState(s, run).sh.blocks;
    assert ExitRight(blocks, blocks[b].slots[i], blocks[b].oldSlots[i]);
  }

  lemma {:induction false} ReachedExits(s: State, run: seq<Step>)
    requires Inv(s) && IsRun(s, run) && ExitsRight(s.sh.blocks)
    ensures ExitsRight(EndState(s, run).sh.blocks)
    decreases |run|
  {
    if run != [] {
      match run[0] {
        case ByThread(u, a) => StepExits(s.sh, u, s.threads[u], a);
        case ByEnvironment(a) => EnvironmentExits(s.sh, a);
      }
      StepKeepsInv(s, run[0]);
      ReachedExits(DoStep(s, run[0]), run[1..]);
    }
  }

  /** In every reachable state chaining two blocks that are not discarded leaves no exit of the first
      unpatched where the guest goes on to the address of the second. */
  lemma {:induction false} ChainingIsComplete(s: State, run: seq<Step>, t: Tid, i: nat)
    requires Initial(s) && IsRun(s, run) && i < 2
    requires CanStep(EndState(s, run), ByThread(t, ChainPatch)) && ChainsLive(EndState(s, run), t)
    ensures ExitPatched(EndState(s, run), DoStep(EndState(s, run), ByThread(t, ChainPatch)), t, i)
  {
    ReachedInv(s, run);
    ReachedExits(s, run);
    ChainStep(EndState(s, run), t, i);
  }

  predicate ChainsLive(e: State, t: Tid) {
    t in e.threads && e.threads[t].pc.ChainLocked? && e.threads[t].last.Some?
    && e.threads[t].last.value in e.sh.live && e.threads[t].pc.b in e.sh.live
  }

  predicate ExitPatched(e: State, e': State, t: Tid, i: nat)
    requires ChainsLive(e, t)
  {
    var from, to := e.threads[t].last.value, e.threads[t].pc.b;
    && from in e'.sh.blocks && to in e'.sh.blocks
    && i < |e'.sh.blocks[from].slots| && i < |e'.sh.blocks[from].oldSlots|
    && (e'.sh.blocks[from].oldSlots[i] == Guest(e'.sh.blocks[to].addr) ==> e'.sh.blocks[from].slots[i].Code?)
  }

  lemma {:induction false} ChainStep(e: State, t: Tid, i: nat)
    requires Inv(e) && ExitsRight(e.sh.blocks) && i < 2 && ChainsLive(e, t) && CanStep(e, ByThread(t, ChainPatch))
    ensures ExitPatched(e, DoStep(e, ByThread(t, ChainPatch)), t, i)
  {
    var blocks, from := e.sh.blocks, e.threads[t].last.value;
    assert ExitRight(blocks, blocks[from].slots[i], blocks[from].oldSlots[i]);
  }

  /** In every reachable state a thread at dispatch may take the entry of its cache exactly when that
      block was translated for the address it asked for, and looks further exactly when it was not. */
  lemma {:induction false} HitExactlyWhenAsked(s: State, run: seq<Step>, t: Tid, k: nat)
    requires Initial(s) && IsRun(s, run) && t in s.threads && AtDispatch(EndState(s, run), t)
    ensures HitsExactly(EndState(s, run), t, k, Asked(run, t, None))
  {
    RunKeepsAddresses(s, run, t, None);
    HitStep(EndState(s, run), t, k, Asked(run, t, None));
  }

  predicate AtDispatch(e: State, t: Tid) { t in e.threads && e.threads[t].pc.Dispatch? }

  predicate HitsExactly(e: State, t: Tid, k: nat, asked: Option<Addr>)
    requires AtDispatch(e, t)
  {
    var found := k in e.threads[t].cache && TranslatedFor(e.sh.blocks, e.threads[t].cache[k], asked);
    (CanStep(e, ByThread(t, Hit(k))) <==> found) && (CanStep(e, ByThread(t, CacheMiss(k))) <==> !found)
  }

  lemma {:induction false} HitStep(e: State, t: Tid, k: nat, asked: Option<Addr>)
    requires Inv(e) && AtDispatch(e, t) && HandRight(e.sh.blocks, e.threads[t].pc, asked)
    ensures HitsExactly(e, t, k, asked)
  {
    assert ThreadInv(e.sh, t, e.threads[t]);
    if k in e.threads[t].cache { CachedIsKnown(e.sh, t, e.threads[t], k); }
  }

  lemma {:induction false} CachedIsKnown(sh: Shared, t: Tid, th: Thread, k: nat)
    requires ThreadInv(sh, t, th) && Partition(sh) && th.pc.Dispatch? && k in th.cache
    ensures th.cache[k] in sh.blocks
  {
    assert th.cache[k] in sh.Allocated();
  }

  // ---------------------------------------------------------------------------------------------
  // What dispatch looks at, and that it gets there
  // ---------------------------------------------------------------------------------------------

  /** The thread's caches hold current blocks only: live ones, unless an invalidation is under way. */
  ghost predicate FreshCaches(e: State, t: Tid) {
    && t in e.threads && Holds(e.threads[t].cache, e.sh.Current()) && Holds(e.threads[t].ret, e.sh.Current())
    && (!e.sh.lock.Invalidating? ==> Holds(e.threads[t].cache, e.sh.live) && Holds(e.threads[t].ret, e.sh.live))
  }

  lemma {:induction false} ReachingDispatch(e: State, t: Tid, a: Action)
    requires Inv(e) && CanStep(e, ByThread(t, a)) && DoStep(e, ByThread(t, a)).threads[t].pc.Dispatch?
    ensures FreshCaches(DoStep(e, ByThread(t, a)), t)
  {
    assert ThreadInv(e.sh, t, e.threads[t]);
    OnlyTheLoop(e.sh, t, e.threads[t], a);
    assert !e.sh.lock.Invalidating? ==> e.sh.Current() == e.sh.live;
  }

  lemma {:induction false} OnlyTheLoop(sh: Shared, t: Tid, th: Thread, a: Action)
    requires !IsEnvironment(a) && Enabled(sh, t, th, a) && Next(sh, t, th, a).1.pc.Dispatch?
    ensures a.LoopCheck? || a.LoopClear?
    ensures Next(sh, t, th, a).0 == sh
    ensures a.LoopCheck? ==> th.cacheGen == sh.gen && Next(sh, t, th, a).1 == th.(pc := Next(sh, t, th, a).1.pc)
    ensures a.LoopClear? ==> Next(sh, t, th, a).1.cache == map[] && Next(sh, t, th, a).1.ret == map[]
  {}

  /** A thread that arrives at dispatch in any run, whatever was invalidated since it entered, has in its
      caches live blocks only, or blocks the invalidation now under way is taking. */
  lemma {:induction false} DispatchSeesCurrentBlocks(s: State, run: seq<Step>, t: Tid, a: Action)
    requires Initial(s) && IsRun(s, run) && CanStep(EndState(s, run), ByThread(t, a))
    requires DoStep(EndState(s, run), ByThread(t, a)).threads[t].pc.Dispatch?
    ensures FreshCaches(DoStep(EndState(s, run), ByThread(t, a)), t)
  {
    ReachedInv(s, run);
    ReachingDispatch(EndState(s, run), t, a);
  }

  predicate RemembersBlock(th: Thread) { th.pc.Ready? ==> th.last == Some(th.pc.b) }

  lemma {:induction false} StepRemembers(s: State, st: Step)
    requires CanStep(s, st) && forall t :: t in s.threads ==> RemembersBlock(s.threads[t])
    ensures forall t :: t in DoStep(s, st).threads ==> RemembersBlock(DoStep(s, st).threads[t])
  {}

  lemma {:induction false} RunRemembers(s: State, run: seq<Step>)
    requires IsRun(s, run) && forall t :: t in s.threads ==> RemembersBlock(s.threads[t])
    ensures forall t :: t in EndState(s, run).threads ==> RemembersBlock(EndState(s, run).threads[t])
    decreases |run|
  {
    if run != [] {
      StepRemembers(s, run[0]);
      RunRemembers(DoStep(s, run[0]), run[1..]);
    }
  }

  /** In every reachable state the block about to be executed is the one whose exits the next chaining by this
      thread patches, unless the code leaves another in its place. */
  lemma {:induction false} LastIsTheBlockExecuted(s: State, run: seq<Step>, t: Tid)
    requires Initial(s) && IsRun(s, run) && t in EndState(s, run).threads && EndState(s, run).threads[t].pc.Ready?
    ensures EndState(s, run).threads[t].last == Some(EndState(s, run).threads[t].pc.b)
  {
    RunRemembers(s, run);
  }

  predicate ReadyToExecute(e: State, t: Tid, ip: Addr) {
    t in e.threads && e.threads[t].pc.Exec? && TranslatedFor(e.sh.blocks, e.threads[t].pc.b, Some(ip))
  }

  /** From the block in hand on. */
  lemma {:induction false} RunsBlock(e: State, t: Tid, ip: Addr)
    requires t in e.threads && e.threads[t].pc.Have? && TranslatedFor(e.sh.blocks, e.threads[t].pc.b, Some(ip))
    ensures IsRun(e, [ByThread(t, SkipChain), ByThread(t, FiberEnter)])
    ensures ReadyToExecute(EndState(e, [ByThread(t, SkipChain), ByThread(t, FiberEnter)]), t, ip)
  {
    var run := [ByThread(t, SkipChain), ByThread(t, FiberEnter)];
    assert run[1..] == [ByThread(t, FiberEnter)] && run[1..][1..] == [];
    var mid := DoStep(e, run[0]);
    assert CanStep(mid, run[1]);
    assert EndState(mid, run[1..]) == DoStep(mid, run[1]);
  }

  lemma {:induction false} RunAppends(e: State, a: seq<Step>, b: seq<Step>)
    requires IsRun(e, a) && IsRun(EndState(e, a), b)
    ensures IsRun(e, a + b) && EndState(e, a + b) == EndState(EndState(e, a), b)
    decreases |a|
  {
    if a == [] {
      assert a + b == b;
    } else {
      assert (a + b)[0] == a[0] && (a + b)[1..] == a[1..] + b;
      RunAppends(DoStep(e, a[0]), a[1..], b);
    }
  }

  lemma {:induction false} OneStep(e: State, st: Step)
    requires CanStep(e, st)
    ensures IsRun(e, [st]) && EndState(e, [st]) == DoStep(e, st)
  {
    assert [st][1..] == [];
    assert EndState(DoStep(e, st), []) == DoStep(e, st);
  }

  /** A miss, with the lock free and the compiler able: the thread goes on to a block for the address. */
  lemma {:induction false} MissProceeds(e: State, t: Tid, k: nat, id: Id)
    requires AtDispatch(e, t) && e.sh.lock.Free? && id !in e.sh.blocks && CanStep(e, ByThread(t, CacheMiss(k)))
    ensures var run := [ByThread(t, CacheMiss(k)), ByThread(t, TakeLock), ByThread(t, CompileInserts(k, id, [NoSlot, NoSlot]))];
      && IsRun(e, run) && var e' := EndState(e, run);
      t in e'.threads && e'.threads[t].pc.Have? && TranslatedFor(e'.sh.blocks, e'.threads[t].pc.b, Some(e.threads[t].pc.ip))
  {
    var a, b, c := ByThread(t, CacheMiss(k)), ByThread(t, TakeLock), ByThread(t, CompileInserts(k, id, [NoSlot, NoSlot]));
    OneStep(e, a);
    var e1 := DoStep(e, a);
    OneStep(e1, b);
    var e2 := DoStep(e1, b);
    assert CanStep(e2, c);
    OneStep(e2, c);
    RunAppends(e, [a], [b]);
    RunAppends(e, [a] + [b], [c]);
    assert [a] + [b] + [c] == [a, b, c];
  }

  lemma {:induction false} HitProceeds(e: State, t: Tid, k: nat)
    requires AtDispatch(e, t) && CanStep(e, ByThread(t, Hit(k)))
    ensures var e' := DoStep(e, ByThread(t, Hit(k)));
      t in e'.threads && e'.threads[t].pc.Have? && TranslatedFor(e'.sh.blocks, e'.threads[t].pc.b, Some(e.threads[t].pc.ip))
  {}

  /** In every reachable state with the lock free a thread at dispatch has a run of its own steps at whose end
      it executes a block translated for the address it asked for. */
  lemma {:induction false} DispatchGetsThere(s: State, run: seq<Step>, t: Tid, k: nat, id: Id) returns (more: seq<Step>)
    requires Initial(s) && IsRun(s, run) && t in s.threads && AtDispatch(EndState(s, run), t)
    requires EndState(s, run).sh.lock.Free? && id !in EndState(s, run).sh.blocks
    ensures IsRun(EndState(s, run), more)
    ensures Asked(run, t, None).Some? && ReadyToExecute(EndState(EndState(s, run), more), t, Asked(run, t, None).value)
  {
    var e := EndState(s, run);
    RunKeepsAddresses(s, run, t, None);
    HitExactlyWhenAsked(s, run, t, k);
    var ip := e.threads[t].pc.ip;
    if CanStep(e, ByThread(t, Hit(k))) {
      more := [ByThread(t, Hit(k))];
      OneStep(e, more[0]);
      HitProceeds(e, t, k);
    } else {
      more := [ByThread(t, CacheMiss(k)), ByThread(t, TakeLock), ByThread(t, CompileInserts(k, id, [NoSlot, NoSlot]))];
      MissProceeds(e, t, k, id);
    }
    var tail := [ByThread(t, SkipChain), ByThread(t, FiberEnter)];
    RunsBlock(EndState(e, more), t, ip);
    RunAppends(e, more, tail);
    more := more + tail;
  }
}
