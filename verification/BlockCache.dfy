/**
 Reclamation of translated blocks (asbestos/asbestos.c) as a transition system of many threads.

 Blocks are named by identifiers that are never reused, so "freed" is a fact about an identifier and
 a use after free is a step that touches a freed one. The steps are as fine as the accesses that
 other threads can observe: the unlocked reads of invalidate_gen and is_jetsam, every lock operation,
 every patched or restored jump slot, and each block an invalidation moves to the jetsam list.
 */
module BlockCache {

  type Id = nat
  type Tid = nat
  type Addr = nat

  datatype Option<+T> = None | Some(value: T)

  /** What the word at `jump_ip[i]` holds: a guest address, or the code of a block once chained. */
  datatype Slot = NoSlot | Guest(ip: Addr) | Code(target: Id)

  datatype Block = Block(addr: Addr, slots: seq<Slot>, oldSlots: seq<Slot>)

  datatype Lock = Free | HeldBy(t: Tid) | Invalidating(todo: set<Id>, victim: Option<Id>, marked: set<Id>)

  /** Everything the threads share. `linked` holds the (block, exit) pairs whose jumps_from_links are
      on some block's jumps_from list. */
  datatype Shared = Shared(
    blocks: map<Id, Block>, live: set<Id>, jetsam: set<Id>, freed: set<Id>, linked: set<(Id, nat)>,
    gen: nat, lock: Lock, readers: set<Tid>, writer: Option<Tid>)
  {
    /** Blocks moved to the jetsam list by the invalidation that now holds the lock. */
    function Marked(): set<Id> { if lock.Invalidating? then lock.marked else {} }

    /** What a cache stamped with the current generation may point to. */
    function Current(): set<Id> { live + Marked() }

    /** What a thread inside may point to. */
    function Allocated(): set<Id> { live + jetsam }
  }

  datatype Pc =
    | Out                         // not in cpu_step_to_interrupt
    | Entered                     // jetsam_lock read-held, caches_stale not yet computed
    | Stale                       // caches_stale, block_cache not yet cleared
    | FrameCheck(stale: bool)     // the frame is not yet checked and ret_cache not yet cleared
    | LoopTop
    | LoopStale(ip: Addr)         // the check inside the loop saw another generation
    | Dispatch(ip: Addr)          // the code at ip is asked for
    | Miss(ip: Addr)
    | MissLocked(ip: Addr)
    | Have(b: Id, ip: Addr)
    | ChainTry(b: Id, ip: Addr)   // the unlocked is_jetsam checks passed
    | ChainLocked(b: Id, ip: Addr)
    | Ready(b: Id, ip: Addr)
    | Exec(b: Id)
    | Returned
    | Cleaning                    // jetsam_lock write-held
    | CleanLocked

  /** A thread's private caches, kept in its TLB across calls. */
  datatype Thread = Thread(
    pc: Pc, cacheGen: nat, cache: map<nat, Id>, hasFrame: bool, ret: map<nat, Id>, last: Option<Id>)

  predicate Inside(pc: Pc) {
    !pc.Out? && !pc.Cleaning? && !pc.CleanLocked?
  }

  predicate HoldsLock(pc: Pc) {
    pc.MissLocked? || pc.ChainLocked? || pc.CleanLocked?
  }

  function PcBlocks(pc: Pc): set<Id> {
    match pc
    case Have(b, _) => {b}
    case ChainTry(b, _) => {b}
    case ChainLocked(b, _) => {b}
    case Ready(b, _) => {b}
    case Exec(b) => {b}
    case _ => {}
  }

  datatype LastChoice = Keep | Current | Clear

  datatype Action =
    | Attach                          // tlb_refresh onto this address space
    | Enter
    | ComputeStale
    | ClearCache
    | CheckFrame
    | FrameFails
    | LoopCheck(ip: Addr)             // ip is the guest's program counter
    | LoopClear
    | Hit(k: nat)                     // block_cache[k], for k the hash of the address asked for
    | CacheMiss(k: nat)
    | TakeLock
    | LookupFinds(k: nat, id: Id)
    | CompileInserts(k: nat, id: Id, exits: seq<Slot>)
    | CompileFails
    | SkipChain
    | ChainCheck
    | ChainTryLock
    | ChainTryFails
    | ChainPatch
    | FiberEnter
    | JumpSlot(i: nat)                // along a patched exit
    | JumpRet(k: nat)                 // along a ret_cache entry
    | JumpCache(k: nat)               // along a block_cache entry
    | PushRet(k: nat)                 // a call records its return point
    | FiberExit(choice: LastChoice)
    | FlushAll                        // crash, or mmu->changes moved
    | Again                           // back to the top of the loop
    | Leave
    | TakeWrite
    | CleanTakeLock
    | FreeJetsam
    | ReleaseWrite
    // asbestos_invalidate_range and _all, by any thread, also from inside a block's store
    | InvalidateBegin(todo: set<Id>)
    | InvalidateVictim(id: Id)        // fiber_block_disconnect starts: the victim's own links go
    | InvalidateRestore(p: Id, i: nat) // one jump into the victim is put back
    | InvalidateMark                  // is_jetsam, and onto the jetsam list
    | InvalidateEnd                   // the generation moves if anything was marked

  predicate IsEnvironment(a: Action) {
    a.InvalidateBegin? || a.InvalidateVictim? || a.InvalidateRestore? || a.InvalidateMark? || a.InvalidateEnd?
  }

  predicate ValidExits(exits: seq<Slot>) {
    |exits| == 2 && !exits[0].Code? && !exits[1].Code?
  }

  /** The exit of `id` is patched to jump to `target`. */
  predicate Chained(blocks: map<Id, Block>, id: Id, i: nat, target: Id) {
    id in blocks && i < |blocks[id].slots| && blocks[id].slots[i] == Code(target)
  }

  predicate IsChained(sh: Shared, id: Id, i: nat) {
    id in sh.blocks && i < |sh.blocks[id].slots| && sh.blocks[id].slots[i].Code?
  }

  predicate HasExit(sh: Shared, id: Id) {
    id in sh.blocks && exists i :: 0 <= i < |sh.blocks[id].slots| && !sh.blocks[id].slots[i].NoSlot?
  }

  predicate Enabled(sh: Shared, t: Tid, th: Thread, a: Action)
    requires !IsEnvironment(a)
  {
    match a
    case Attach => th.pc.Out?
    case Enter => th.pc.Out? && sh.writer.None?
    case ComputeStale => th.pc.Entered?
    case ClearCache => th.pc.Stale?
    case CheckFrame => th.pc.FrameCheck?
    case FrameFails => th.pc.FrameCheck? && !th.hasFrame
    case LoopCheck(ip) => th.pc.LoopTop?
    case LoopClear => th.pc.LoopStale?
    case Hit(k) =>
      th.pc.Dispatch? && k in th.cache && th.cache[k] in sh.blocks && sh.blocks[th.cache[k]].addr == th.pc.ip
    case CacheMiss(k) =>
      th.pc.Dispatch? && (k in th.cache ==> th.cache[k] in sh.blocks && sh.blocks[th.cache[k]].addr != th.pc.ip)
    case TakeLock => th.pc.Miss? && sh.lock.Free?
    case LookupFinds(k, id) => th.pc.MissLocked? && id in sh.live && id in sh.blocks && sh.blocks[id].addr == th.pc.ip
    case CompileInserts(k, id, exits) => th.pc.MissLocked? && id !in sh.blocks && ValidExits(exits)
    case CompileFails => th.pc.MissLocked?
    case SkipChain => th.pc.Have?
    case ChainCheck =>
      th.pc.Have? && th.last.Some? && th.last.value !in sh.jetsam && th.pc.b !in sh.jetsam && HasExit(sh, th.last.value)
    case ChainTryLock => th.pc.ChainTry? && sh.lock.Free?
    case ChainTryFails => th.pc.ChainTry?
    case ChainPatch => th.pc.ChainLocked?
    case FiberEnter => th.pc.Ready?
    case JumpSlot(i) => th.pc.Exec? && IsChained(sh, th.pc.b, i)
    case JumpRet(k) => th.pc.Exec? && k in th.ret
    case JumpCache(k) => th.pc.Exec? && k in th.cache
    case PushRet(k) => th.pc.Exec?
    case FiberExit(choice) => th.pc.Exec?
    case FlushAll => th.pc.Returned?
    case Again => th.pc.Returned?
    case Leave => th.pc.Returned? || th.pc.Dispatch?
    case TakeWrite => th.pc.Out? && sh.readers == {} && sh.writer.None? && sh.jetsam != {}
    case CleanTakeLock => th.pc.Cleaning? && sh.lock.Free?
    case FreeJetsam => th.pc.CleanLocked?
    case ReleaseWrite => th.pc.Cleaning?
    case _ => false
  }

  /** Patches every exit of `from` that still holds the address of `to`. */
  function PatchExits(blk: Block, to: Id, addr: Addr): Block {
    blk.(slots := seq(|blk.slots|, i requires 0 <= i < |blk.slots| =>
      if blk.slots[i] == Guest(addr) then Code(to) else blk.slots[i]))
  }

  function PatchedExits(from: Id, blk: Block, addr: Addr): set<(Id, nat)> {
    set i: nat | i < |blk.slots| && blk.slots[i] == Guest(addr) :: (from, i)
  }

  function Next(sh: Shared, t: Tid, th: Thread, a: Action): (Shared, Thread)
    requires !IsEnvironment(a) && Enabled(sh, t, th, a)
  {
    match a
    case Attach => (sh, th.(cacheGen := 0, cache := map[], hasFrame := false, ret := map[]))
    case Enter => (sh.(readers := sh.readers + {t}), th.(pc := Entered))
    case ComputeStale => (sh, th.(pc := if th.cacheGen != sh.gen then Stale else FrameCheck(false)))
    case ClearCache => (sh, th.(pc := FrameCheck(true), cache := map[], cacheGen := sh.gen))
    case CheckFrame =>
      (sh, th.(pc := LoopTop, hasFrame := true, last := None,
               ret := if th.pc.stale || !th.hasFrame then map[] else th.ret))
    case FrameFails => (sh.(readers := sh.readers - {t}), th.(pc := Out))
    case LoopCheck(ip) => (sh, th.(pc := if th.cacheGen != sh.gen then LoopStale(ip) else Dispatch(ip)))
    case LoopClear => (sh, th.(pc := Dispatch(th.pc.ip), cache := map[], cacheGen := sh.gen, ret := map[]))
    case Hit(k) => (sh, th.(pc := Have(th.cache[k], th.pc.ip)))
    case CacheMiss(k) => (sh, th.(pc := Miss(th.pc.ip)))
    case TakeLock => (sh.(lock := HeldBy(t)), th.(pc := MissLocked(th.pc.ip)))
    case LookupFinds(k, id) => (sh.(lock := Free), th.(pc := Have(id, th.pc.ip), cache := th.cache[k := id]))
    case CompileInserts(k, id, exits) =>
      (sh.(lock := Free, live := sh.live + {id}, blocks := sh.blocks[id := Block(th.pc.ip, exits, exits)]),
       th.(pc := Have(id, th.pc.ip), cache := th.cache[k := id]))
    case CompileFails => (sh.(lock := Free), th.(pc := Returned))
    case SkipChain => (sh, th.(pc := Ready(th.pc.b, th.pc.ip), last := Some(th.pc.b)))
    case ChainCheck => (sh, th.(pc := ChainTry(th.pc.b, th.pc.ip)))
    case ChainTryLock => (sh.(lock := HeldBy(t)), th.(pc := ChainLocked(th.pc.b, th.pc.ip)))
    case ChainTryFails => (sh, th.(pc := Ready(th.pc.b, th.pc.ip), last := Some(th.pc.b)))
    case ChainPatch =>
      var b := th.pc.b;
      var th' := th.(pc := Ready(b, th.pc.ip), last := Some(b));
      var unlocked := sh.(lock := Free);
      if th.last.Some? && th.last.value !in sh.jetsam && b !in sh.jetsam
         && th.last.value in sh.blocks && b in sh.blocks then
        var from := th.last.value;
        (unlocked.(blocks := sh.blocks[from := PatchExits(sh.blocks[from], b, sh.blocks[b].addr)],
                   linked := sh.linked + PatchedExits(from, sh.blocks[from], sh.blocks[b].addr)), th')
      else
        (unlocked, th')
    case FiberEnter => (sh, th.(pc := Exec(th.pc.b)))
    case JumpSlot(i) => (sh, th.(pc := Exec(sh.blocks[th.pc.b].slots[i].target)))
    case JumpRet(k) => (sh, th.(pc := Exec(th.ret[k])))
    case JumpCache(k) => (sh, th.(pc := Exec(th.cache[k])))
    case PushRet(k) => (sh, th.(ret := th.ret[k := th.pc.b]))
    case FiberExit(choice) =>
      (sh, th.(pc := Returned,
               last := match choice case Keep => th.last case Current => Some(th.pc.b) case Clear => None))
    case FlushAll => (sh, th.(cache := map[], cacheGen := sh.gen, ret := map[], last := None))
    case Again => (sh, th.(pc := LoopTop))
    case Leave => (sh.(readers := sh.readers - {t}), th.(pc := Out))
    case TakeWrite => (sh.(writer := Some(t)), th.(pc := Cleaning))
    case CleanTakeLock => (sh.(lock := HeldBy(t)), th.(pc := CleanLocked))
    case FreeJetsam => (sh.(freed := sh.freed + sh.jetsam, jetsam := {}, lock := Free), th.(pc := Cleaning))
    case ReleaseWrite => (sh.(writer := None), th.(pc := Out))
  }

  predicate EnabledEnv(sh: Shared, a: Action)
    requires IsEnvironment(a)
  {
    match a
    case InvalidateBegin(todo) => sh.lock.Free? && todo <= sh.live
    case InvalidateVictim(id) => sh.lock.Invalidating? && sh.lock.victim.None? && id in sh.lock.todo
    case InvalidateRestore(p, i) =>
      sh.lock.Invalidating? && sh.lock.victim.Some? && (p, i) in sh.linked && Chained(sh.blocks, p, i, sh.lock.victim.value)
      && i < |sh.blocks[p].oldSlots|
    case InvalidateMark =>
      sh.lock.Invalidating? && sh.lock.victim.Some? &&
      forall l :: l in sh.linked ==> !Chained(sh.blocks, l.0, l.1, sh.lock.victim.value)
    case InvalidateEnd => sh.lock.Invalidating? && sh.lock.victim.None? && sh.lock.todo == {}
  }

  function NextEnv(sh: Shared, a: Action): Shared
    requires IsEnvironment(a) && EnabledEnv(sh, a)
  {
    match a
    case InvalidateBegin(todo) => sh.(lock := Invalidating(todo, None, {}))
    case InvalidateVictim(id) =>
      sh.(lock := sh.lock.(victim := Some(id)), linked := sh.linked - {(id, 0), (id, 1)})
    case InvalidateRestore(p, i) =>
      sh.(blocks := sh.blocks[p := sh.blocks[p].(slots := sh.blocks[p].slots[i := sh.blocks[p].oldSlots[i]])],
          linked := sh.linked - {(p, i)})
    case InvalidateMark =>
      var b := sh.lock.victim.value;
      sh.(live := sh.live - {b}, jetsam := sh.jetsam + {b},
          lock := Invalidating(sh.lock.todo - {b}, None, sh.lock.marked + {b}))
    case InvalidateEnd => sh.(gen := if sh.lock.marked != {} then sh.gen + 1 else sh.gen, lock := Free)
  }

  /** The blocks whose memory a step reads, writes, or releases. */
  function Touched(sh: Shared, th: Thread, a: Action): set<Id> {
    match a
    case Hit(k) => if k in th.cache then {th.cache[k]} else {}
    case CacheMiss(k) => if k in th.cache then {th.cache[k]} else {}
    case LookupFinds(_, id) => sh.live
    case CompileInserts(_, _, _) => sh.live
    case SkipChain => PcBlocks(th.pc) + LastBlock(th)
    case ChainCheck => PcBlocks(th.pc) + LastBlock(th)
    case ChainPatch => PcBlocks(th.pc) + LastBlock(th)
    case FiberEnter => PcBlocks(th.pc)
    case JumpSlot(i) => PcBlocks(th.pc) + if th.pc.Exec? && IsChained(sh, th.pc.b, i) then {sh.blocks[th.pc.b].slots[i].target} else {}
    case JumpRet(k) => PcBlocks(th.pc) + if k in th.ret then {th.ret[k]} else {}
    case JumpCache(k) => PcBlocks(th.pc) + if k in th.cache then {th.cache[k]} else {}
    case PushRet(_) => PcBlocks(th.pc)
    case FiberExit(_) => PcBlocks(th.pc)
    case FreeJetsam => sh.jetsam
    case InvalidateVictim(_) => sh.live
    case InvalidateRestore(p, _) => {p} + VictimBlock(sh)
    case InvalidateMark => VictimBlock(sh)
    case _ => {}
  }

  function LastBlock(th: Thread): set<Id> {
    if th.last.Some? then {th.last.value} else {}
  }

  function VictimBlock(sh: Shared): set<Id> {
    if sh.lock.Invalidating? && sh.lock.victim.Some? then {sh.lock.victim.value} else {}
  }
}
