/** No step of any run touches a freed block: the invariant and its preservation. */
module BlockCacheSafety {
  import opened BlockCache

  datatype State = State(sh: Shared, threads: map<Tid, Thread>)

  datatype Step = ByThread(t: Tid, a: Action) | ByEnvironment(a: Action)

  predicate CanStep(s: State, st: Step) {
    match st
    case ByThread(t, a) => !IsEnvironment(a) && t in s.threads && Enabled(s.sh, t, s.threads[t], a)
    case ByEnvironment(a) => IsEnvironment(a) && EnabledEnv(s.sh, a)
  }

  function DoStep(s: State, st: Step): State
    requires CanStep(s, st)
  {
    match st
    case ByThread(t, a) => var (sh, th) := Next(s.sh, t, s.threads[t], a); State(sh, s.threads[t := th])
    case ByEnvironment(a) => State(NextEnv(s.sh, a), s.threads)
  }

  function StepTouches(s: State, st: Step): set<Id>
    requires CanStep(s, st)
  {
    match st
    case ByThread(t, a) => Touched(s.sh, s.threads[t], a)
    case ByEnvironment(a) => Touched(s.sh, Thread(Out, 0, map[], false, map[], None), a)
  }

  predicate Initial(s: State) {
    && s.sh == Shared(map[], {}, {}, {}, {}, 0, Free, {}, None)
    && forall t :: t in s.threads ==> s.threads[t] == Thread(Out, 0, map[], false, map[], None)
  }

  predicate IsRun(s: State, run: seq<Step>)
    decreases |run|
  {
    run == [] || (CanStep(s, run[0]) && IsRun(DoStep(s, run[0]), run[1..]))
  }

  // ---------------------------------------------------------------------------------------------
  // The invariant
  // ---------------------------------------------------------------------------------------------

  ghost predicate Partition(sh: Shared) {
    && sh.live !! sh.jetsam !! sh.freed && sh.blocks.Keys == sh.live + sh.jetsam + sh.freed
    && (forall b :: b in sh.blocks ==> |sh.blocks[b].slots| == 2 && ValidExits(sh.blocks[b].oldSlots))
  }

  /** Patched exits of the blocks of `s` lead to blocks of `s`. */
  ghost predicate Closed(blocks: map<Id, Block>, s: set<Id>) {
    forall b, i: nat, c :: b in s && Chained(blocks, b, i, c) ==> c in s
  }

  /** A patched exit of a live block, except the one being disconnected, is on its target's jumps_from list. */
  ghost predicate Recorded(blocks: map<Id, Block>, live: set<Id>, victim: set<Id>, linked: set<(Id, nat)>) {
    && (forall b, i: nat, c :: b in live && b !in victim && Chained(blocks, b, i, c) ==> (b, i) in linked)
    && (forall l :: l in linked ==> l.0 in live && l.0 !in victim && l.1 < 2)
  }

  predicate LockInv(sh: Shared) {
    && (sh.lock.Invalidating? ==>
         && sh.lock.marked <= sh.jetsam && sh.lock.todo <= sh.live
         && (sh.lock.victim.Some? ==> sh.lock.victim.value in sh.lock.todo))
    && (sh.writer.Some? ==> sh.readers == {})
  }

  /** Exits of live blocks, of what a current cache can reach, and of what is not freed lead to
      the same kind, and jumps into live blocks are recorded. */
  ghost predicate SharedInv(sh: Shared) {
    && Partition(sh) && LockInv(sh)
    && Closed(sh.blocks, sh.live) && Closed(sh.blocks, sh.Current()) && Closed(sh.blocks, sh.Allocated())
    && Recorded(sh.blocks, sh.live, VictimBlock(sh), sh.linked)
  }

  predicate Holds(m: map<nat, Id>, s: set<Id>) {
    forall k :: k in m ==> m[k] in s
  }

  /** The block_cache, the ret_cache unless it is about to be cleared, and the block in hand are in `s`. */
  predicate CachesIn(th: Thread, s: set<Id>) {
    && Holds(th.cache, s) && PcBlocks(th.pc) <= s && (th.pc != FrameCheck(true) ==> Holds(th.ret, s))
  }

  /** A cache stamped with the current generation holds only current blocks; past the entry checks,
      a thread inside holds only blocks that are not freed. */
  predicate ThreadSees(gen: nat, current: set<Id>, safe: set<Id>, th: Thread) {
    && th.cacheGen <= gen
    && (!th.hasFrame ==> th.ret == map[]) && (PastEntry(th.pc) && !th.pc.FrameCheck? ==> th.hasFrame)
    && (th.cacheGen == gen ==> CachesIn(th, current))
    && (PastEntry(th.pc) ==> CachesIn(th, safe) && (!th.pc.FrameCheck? ==> LastBlock(th) <= safe))
  }

  predicate PastEntry(pc: Pc) {
    Inside(pc) && !pc.Entered? && !pc.Stale?
  }

  /** The locks are held by the threads whose program counters say so. */
  predicate LocksAgree(lock: Lock, readers: set<Tid>, writer: Option<Tid>, t: Tid, pc: Pc) {
    && (Inside(pc) <==> t in readers)
    && (pc.Cleaning? || pc.CleanLocked? <==> writer == Some(t))
    && (HoldsLock(pc) <==> lock == HeldBy(t))
  }

  predicate ThreadInv(sh: Shared, t: Tid, th: Thread) {
    && LocksAgree(sh.lock, sh.readers, sh.writer, t, th.pc)
    && ThreadSees(sh.gen, sh.Current(), sh.Allocated(), th)
  }

  ghost predicate Inv(s: State) {
    SharedInv(s.sh) && (forall t :: t in s.threads ==> ThreadInv(s.sh, t, s.threads[t]))
  }

  // ---------------------------------------------------------------------------------------------
  // Preservation
  // ---------------------------------------------------------------------------------------------

  /** What a step on the shared state must satisfy for the threads that did not take it. */
  predicate Unharmful(sh: Shared, sh': Shared) {
    && sh.gen <= sh'.gen
    && (sh.gen == sh'.gen ==> sh.Current() <= sh'.Current())
    && (sh.readers == {} || sh.Allocated() <= sh'.Allocated())
  }

  predicate SameFor(sh: Shared, sh': Shared, t: Tid) {
    && (t in sh.readers <==> t in sh'.readers)
    && (sh.writer == Some(t) <==> sh'.writer == Some(t))
    && (sh.lock == HeldBy(t) <==> sh'.lock == HeldBy(t))
  }

  lemma OtherThread(sh: Shared, sh': Shared, t: Tid, th: Thread)
    requires ThreadInv(sh, t, th) && Unharmful(sh, sh') && SameFor(sh, sh', t)
    ensures ThreadInv(sh', t, th)
  {}

  /** Steps that change only the thread's program counter and caches. */
  predicate EntryStep(a: Action) {
    a.Attach? || a.ComputeStale? || a.ClearCache? || a.CheckFrame?
  }

  predicate LoopStep(a: Action) {
    a.LoopCheck? || a.LoopClear? || a.Hit? || a.CacheMiss? || a.FlushAll? || a.Again?
  }

  predicate BeforeFiberStep(a: Action) {
    a.SkipChain? || a.ChainCheck? || a.ChainTryFails? || a.FiberEnter?
  }

  predicate InFiberStep(a: Action) {
    a.JumpSlot? || a.JumpRet? || a.JumpCache? || a.PushRet? || a.FiberExit?
  }

  /** Steps that only take or drop jetsam_lock. */
  predicate GateStep(a: Action) {
    a.Enter? || a.FrameFails? || a.Leave? || a.TakeWrite? || a.ReleaseWrite?
  }

  /** Steps that only take or drop the asbestos lock. */
  predicate MutexStep(a: Action) {
    a.TakeLock? || a.ChainTryLock? || a.CleanTakeLock? || a.CompileFails?
  }

  lemma EntryKeeps(sh: Shared, t: Tid, th: Thread, a: Action)
    requires EntryStep(a) && Enabled(sh, t, th, a) && ThreadInv(sh, t, th) && LockInv(sh)
    ensures Next(sh, t, th, a).0 == sh && ThreadInv(sh, t, Next(sh, t, th, a).1)
  {}

  lemma LoopKeeps(sh: Shared, t: Tid, th: Thread, a: Action)
    requires LoopStep(a) && Enabled(sh, t, th, a) && ThreadInv(sh, t, th)
    ensures Next(sh, t, th, a).0 == sh && ThreadInv(sh, t, Next(sh, t, th, a).1)
  {
    var th' := Next(sh, t, th, a).1;
    if a.Hit? {
      assert PcBlocks(th'.pc) == {th.cache[a.k]};
    } else if a.LoopClear? || a.FlushAll? {
      assert th'.cache == map[] && th'.ret == map[] && PcBlocks(th'.pc) == {};
    } else {
      assert th'.cache == th.cache && th'.ret == th.ret && PcBlocks(th'.pc) == {};
    }
  }

  lemma BeforeFiberKeeps(sh: Shared, t: Tid, th: Thread, a: Action)
    requires BeforeFiberStep(a) && Enabled(sh, t, th, a) && ThreadInv(sh, t, th)
    ensures Next(sh, t, th, a).0 == sh && ThreadInv(sh, t, Next(sh, t, th, a).1)
  {}

  /** Moves inside translated code: along a patched exit, a ret_cache or a block_cache entry. */
  lemma InFiberKeeps(sh: Shared, t: Tid, th: Thread, a: Action)
    requires InFiberStep(a) && Enabled(sh, t, th, a) && ThreadInv(sh, t, th)
    requires Closed(sh.blocks, sh.Current()) && Closed(sh.blocks, sh.Allocated())
    ensures Next(sh, t, th, a).0 == sh && ThreadInv(sh, t, Next(sh, t, th, a).1)
  {
    assert th.pc.b in PcBlocks(th.pc);
    if a.JumpSlot? {
      assert Chained(sh.blocks, th.pc.b, a.i, sh.blocks[th.pc.b].slots[a.i].target);
    }
  }

  lemma PcOnly(sh: Shared, th: Thread, pc: Pc)
    requires ThreadSees(sh.gen, sh.Current(), sh.Allocated(), th)
    requires PcBlocks(pc) <= PcBlocks(th.pc) && (PastEntry(pc) ==> PastEntry(th.pc) && !th.pc.FrameCheck?)
    requires th.pc == FrameCheck(true) ==> !th.hasFrame
    ensures ThreadSees(sh.gen, sh.Current(), sh.Allocated(), th.(pc := pc))
  {}

  lemma GateKeeps(sh: Shared, t: Tid, th: Thread, a: Action)
    requires GateStep(a) && Enabled(sh, t, th, a) && ThreadInv(sh, t, th) && SharedInv(sh)
    ensures var (sh', th') := Next(sh, t, th, a);
            SharedInv(sh') && ThreadInv(sh', t, th') && Unharmful(sh, sh')
  {
    var (sh', th') := Next(sh, t, th, a);
    LocksOnly(sh, sh');
    PcOnly(sh, th, th'.pc);
  }

  lemma MutexKeeps(sh: Shared, t: Tid, th: Thread, a: Action)
    requires MutexStep(a) && Enabled(sh, t, th, a) && ThreadInv(sh, t, th) && SharedInv(sh)
    ensures var (sh', th') := Next(sh, t, th, a);
            SharedInv(sh') && ThreadInv(sh', t, th') && Unharmful(sh, sh')
  {
    var (sh', th') := Next(sh, t, th, a);
    LocksOnly(sh, sh');
    PcOnly(sh, th, th'.pc);
  }

  lemma LocksOnly(sh: Shared, sh': Shared)
    requires SharedInv(sh) && sh' == sh.(lock := sh'.lock, readers := sh'.readers, writer := sh'.writer)
    requires sh'.lock == sh.lock || (!sh.lock.Invalidating? && !sh'.lock.Invalidating?)
    requires sh'.writer.Some? ==> sh'.readers == {}
    ensures SharedInv(sh') && Unharmful(sh, sh') && sh'.Current() == sh.Current()
  {
    assert sh'.Current() == sh.Current() && VictimBlock(sh') == VictimBlock(sh);
  }

  lemma LookupKeeps(sh: Shared, t: Tid, th: Thread, a: Action)
    requires a.LookupFinds? && Enabled(sh, t, th, a) && ThreadInv(sh, t, th) && SharedInv(sh)
    ensures var (sh', th') := Next(sh, t, th, a);
            SharedInv(sh') && ThreadInv(sh', t, th') && Unharmful(sh, sh')
  {
    assert Next(sh, t, th, a).0.Current() == sh.Current();
  }

  lemma InsertKeeps(sh: Shared, t: Tid, th: Thread, a: Action)
    requires a.CompileInserts? && Enabled(sh, t, th, a) && ThreadInv(sh, t, th) && SharedInv(sh)
    ensures var (sh', th') := Next(sh, t, th, a);
            SharedInv(sh') && ThreadInv(sh', t, th') && Unharmful(sh, sh')
  {
    var sh' := Next(sh, t, th, a).0;
    forall b: Id, i: nat, c: Id | Chained(sh'.blocks, b, i, c) ensures b != a.id && Chained(sh.blocks, b, i, c) {}
    assert sh'.Current() == sh.Current() + {a.id} && sh'.Allocated() == sh.Allocated() + {a.id};
    assert SharedInv(sh');
  }

  lemma PatchKeeps(sh: Shared, t: Tid, th: Thread, a: Action)
    requires a.ChainPatch? && Enabled(sh, t, th, a) && ThreadInv(sh, t, th) && SharedInv(sh)
    ensures var (sh', th') := Next(sh, t, th, a);
            SharedInv(sh') && ThreadInv(sh', t, th') && Unharmful(sh, sh')
  {
    var sh' := Next(sh, t, th, a).0;
    assert sh'.Current() == sh.Current() == sh.live && sh'.Allocated() == sh.Allocated();
    assert th.pc.b in PcBlocks(th.pc) && th.pc.b in sh.Allocated();
    PatchedShared(sh, sh', th.last, th.pc.b);
  }

  lemma PatchedShared(sh: Shared, sh': Shared, last: Option<Id>, to: Id)
    requires SharedInv(sh) && sh.lock.HeldBy? && to in sh.Allocated() && (last.Some? ==> last.value in sh.Allocated())
    requires sh' == sh.(lock := Free) || (last.Some? && last.value !in sh.jetsam && to !in sh.jetsam &&
      sh' == sh.(lock := Free, blocks := sh.blocks[last.value := PatchExits(sh.blocks[last.value], to, sh.blocks[to].addr)],
                 linked := sh.linked + PatchedExits(last.value, sh.blocks[last.value], sh.blocks[to].addr)))
    ensures SharedInv(sh')
  {
    if sh'.blocks != sh.blocks {
      var from := last.value;
      forall b: Id, i: nat, c: Id | Chained(sh'.blocks, b, i, c)
        ensures Chained(sh.blocks, b, i, c) || (b == from && c == to && (b, i) in sh'.linked)
      {}
    }
    assert sh'.Current() == sh.Current() == sh.live && sh'.Allocated() == sh.Allocated();
  }

  lemma FreeKeeps(sh: Shared, t: Tid, th: Thread, a: Action)
    requires a.FreeJetsam? && Enabled(sh, t, th, a) && ThreadInv(sh, t, th) && SharedInv(sh)
    ensures var (sh', th') := Next(sh, t, th, a);
            SharedInv(sh') && ThreadInv(sh', t, th') && Unharmful(sh, sh')
  {
    var sh' := Next(sh, t, th, a).0;
    assert sh'.Current() == sh.Current() == sh.live == sh'.Allocated();
  }

  lemma EnvironmentKeeps(sh: Shared, a: Action)
    requires IsEnvironment(a) && EnabledEnv(sh, a) && SharedInv(sh)
    ensures SharedInv(NextEnv(sh, a)) && Unharmful(sh, NextEnv(sh, a))
    ensures NextEnv(sh, a).readers == sh.readers && NextEnv(sh, a).writer == sh.writer
    ensures !NextEnv(sh, a).lock.HeldBy? && !sh.lock.HeldBy?
  {
    var sh' := NextEnv(sh, a);
    if a.InvalidateRestore? {
      RestoreKeeps(sh, a);
    } else if a.InvalidateMark? {
      MarkKeeps(sh, a);
    } else if a.InvalidateEnd? {
      assert sh'.Current() == sh.live;
    } else {
      assert sh'.Current() == sh.Current();
    }
  }

  lemma RestoreKeeps(sh: Shared, a: Action)
    requires a.InvalidateRestore? && EnabledEnv(sh, a) && SharedInv(sh)
    ensures SharedInv(NextEnv(sh, a))
  {
    var sh' := NextEnv(sh, a);
    assert !sh.blocks[a.p].oldSlots[a.i].Code?;
    forall b: Id, i: nat, c: Id | Chained(sh'.blocks, b, i, c)
      ensures Chained(sh.blocks, b, i, c) && (b, i) != (a.p, a.i) {}
    assert sh'.Current() == sh.Current();
  }

  lemma MarkKeeps(sh: Shared, a: Action)
    requires a.InvalidateMark? && EnabledEnv(sh, a) && SharedInv(sh)
    ensures SharedInv(NextEnv(sh, a)) && Unharmful(sh, NextEnv(sh, a))
  {
    var sh', v := NextEnv(sh, a), sh.lock.victim.value;
    assert sh'.Current() == sh.Current() && sh'.Allocated() == sh.Allocated();
  }

  lemma {:induction false} ThreadStepKeepsInv(s: State, t: Tid, a: Action)
    requires Inv(s) && !IsEnvironment(a) && t in s.threads && Enabled(s.sh, t, s.threads[t], a)
    ensures var (sh', th') := Next(s.sh, t, s.threads[t], a);
            SharedInv(sh') && ThreadInv(sh', t, th') && Unharmful(s.sh, sh')
  {
    var th := s.threads[t];
    assert ThreadInv(s.sh, t, th);
    if EntryStep(a) { EntryKeeps(s.sh, t, th, a); }
    else if LoopStep(a) { LoopKeeps(s.sh, t, th, a); }
    else if BeforeFiberStep(a) { BeforeFiberKeeps(s.sh, t, th, a); }
    else if InFiberStep(a) { InFiberKeeps(s.sh, t, th, a); }
    else if GateStep(a) { GateKeeps(s.sh, t, th, a); }
    else if MutexStep(a) { MutexKeeps(s.sh, t, th, a); }
    else if a.LookupFinds? { LookupKeeps(s.sh, t, th, a); }
    else if a.CompileInserts? { InsertKeeps(s.sh, t, th, a); }
    else if a.ChainPatch? { PatchKeeps(s.sh, t, th, a); }
    else { FreeKeeps(s.sh, t, th, a); }
  }

  /** One step of any thread, or of an invalidation, keeps the invariant. */
  lemma StepKeepsInv(s: State, st: Step)
    requires Inv(s) && CanStep(s, st)
    ensures Inv(DoStep(s, st))
  {
    var s' := DoStep(s, st);
    match st {
      case ByThread(t, a) =>
        ThreadStepKeepsInv(s, t, a);
        forall u | u in s.threads && u != t ensures ThreadInv(s'.sh, u, s.threads[u]) {
          OtherSame(s.sh, t, s.threads[t], a, u);
          OtherThread(s.sh, s'.sh, u, s.threads[u]);
        }
      case ByEnvironment(a) =>
        EnvironmentKeeps(s.sh, a);
        forall u | u in s.threads ensures ThreadInv(s'.sh, u, s.threads[u]) {
          OtherThread(s.sh, s'.sh, u, s.threads[u]);
        }
    }
  }

  /** A thread's step changes no other thread's hold on a lock. */
  lemma OtherSame(sh: Shared, t: Tid, th: Thread, a: Action, u: Tid)
    requires !IsEnvironment(a) && Enabled(sh, t, th, a) && ThreadInv(sh, t, th) && u != t
    ensures SameFor(sh, Next(sh, t, th, a).0, u)
  {}

  /** What a thread reaches through its caches, its last block and the block in hand is allocated. */
  lemma {:induction false} HeldIsAllocated(sh: Shared, t: Tid, th: Thread, a: Action)
    requires LoopStep(a) || BeforeFiberStep(a) || InFiberStep(a) || a.ChainPatch?
    requires !IsEnvironment(a) && Enabled(sh, t, th, a) && ThreadInv(sh, t, th) && Closed(sh.blocks, sh.Allocated())
    ensures Touched(sh, th, a) <= sh.Allocated()
  {
    if a.JumpSlot? { assert Chained(sh.blocks, th.pc.b, a.i, sh.blocks[th.pc.b].slots[a.i].target); }
  }

  /** In a state of the invariant, no enabled step touches a freed block. */
  lemma {:induction false} StepIsSafe(s: State, st: Step)
    requires Inv(s) && CanStep(s, st)
    ensures StepTouches(s, st) !! s.sh.freed
  {
    match st {
      case ByThread(t, a) =>
        assert ThreadInv(s.sh, t, s.threads[t]);
        if LoopStep(a) || BeforeFiberStep(a) || InFiberStep(a) || a.ChainPatch? { HeldIsAllocated(s.sh, t, s.threads[t], a); }
      case ByEnvironment(a) =>
    }
  }

  /** Along a run no step touches a block that has been freed before it. */
  ghost predicate SafeRun(s: State, run: seq<Step>)
    requires IsRun(s, run)
    decreases |run|
  {
    run == [] || (StepTouches(s, run[0]) !! s.sh.freed && SafeRun(DoStep(s, run[0]), run[1..]))
  }

  lemma {:induction false} RunIsSafe(s: State, run: seq<Step>)
    requires Inv(s) && IsRun(s, run)
    ensures SafeRun(s, run)
    decreases |run|
  {
    if run != [] {
      StepIsSafe(s, run[0]);
      StepKeepsInv(s, run[0]);
      RunIsSafe(DoStep(s, run[0]), run[1..]);
    }
  }

  /** No use after free: from the start, in every interleaving of enter, flush, lookup, chain, execute,
      invalidate, exit and free, no step reads, writes or frees a block that was already freed. */
  lemma {:induction false} NoUseAfterFree(s: State, run: seq<Step>)
    requires Initial(s) && IsRun(s, run)
    ensures SafeRun(s, run)
  {
    RunIsSafe(s, run);
  }

  function EndState(s: State, run: seq<Step>): State
    requires IsRun(s, run)
    decreases |run|
  {
    if run == [] then s else EndState(DoStep(s, run[0]), run[1..])
  }

  lemma {:induction false} ReachedInv(s: State, run: seq<Step>)
    requires Inv(s) && IsRun(s, run)
    ensures Inv(EndState(s, run))
    decreases |run|
  {
    if run != [] {
      StepKeepsInv(s, run[0]);
      ReachedInv(DoStep(s, run[0]), run[1..]);
    }
  }

  /** In every reachable state a patched exit of a live block leads to a live block, never to one that
      was disconnected, and while no invalidation runs a thread whose generation is current holds
      live blocks only. */
  lemma {:induction false} ChainsStayLive(s: State, run: seq<Step>, b: Id, i: nat, c: Id)
    requires Initial(s) && IsRun(s, run)
    ensures var e := EndState(s, run);
      && (b in e.sh.live && Chained(e.sh.blocks, b, i, c) ==> c in e.sh.live)
      && (!e.sh.lock.Invalidating? ==> forall t :: t in e.threads && e.threads[t].cacheGen == e.sh.gen ==>
            Holds(e.threads[t].cache, e.sh.live) && PcBlocks(e.threads[t].pc) <= e.sh.live)
  {
    ReachedInv(s, run);
    var e := EndState(s, run);
    assert !e.sh.lock.Invalidating? ==> e.sh.Current() == e.sh.live;
    assert forall t :: t in e.threads ==> ThreadInv(e.sh, t, e.threads[t]);
  }
}
