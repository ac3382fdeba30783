/**
 The index of translated blocks of one address space (asbestos/asbestos.c): the resizing hash by
 address, the two lists per page, the lists of incoming jumps, and the jetsam list. A list is the
 sequence of the blocks linked on it; blocks are named by identifiers in `blocks`.
 */
module BlockIndex {

  type Id = nat

  const PAGE_SIZE: nat := 4096
  const PAGE_HASH_SIZE: nat := 1024
  const INITIAL_HASH_SIZE: nat := 1024

  datatype Option<+T> = None | Some(value: T)

  datatype Slot = NoSlot | Guest(ip: nat) | Code(target: Id)

  /** struct fiber_block. `jumpsFrom[i]` lists the blocks whose exit `i` is patched to jump here. */
  datatype Block = Block(addr: nat, endAddr: nat, used: nat, jumpIp: seq<Slot>, oldJumpIp: seq<Slot>,
                         jumpsFrom: seq<seq<Id>>, isJetsam: bool)

  function Page(addr: nat): nat { addr / PAGE_SIZE }

  /** Which list of the page hash a block is on: 0 by its first page, 1 by its last if that differs. */
  function PageBucket(b: Block, i: nat): Option<nat> {
    if i == 0 then Some(Page(b.addr) % PAGE_HASH_SIZE)
    else if Page(b.addr) != Page(b.endAddr) then Some(Page(b.endAddr) % PAGE_HASH_SIZE)
    else None
  }

  predicate NoDup(l: seq<Id>) {
    l == [] || (l[0] !in l[1..] && NoDup(l[1..]))
  }

  function Remove(l: seq<Id>, x: Id): seq<Id> {
    if l == [] then [] else if l[0] == x then l[1..] else [l[0]] + Remove(l[1..], x)
  }

  lemma {:induction false} RemoveMembers(l: seq<Id>, x: Id)
    requires NoDup(l)
    ensures NoDup(Remove(l, x))
    ensures forall y :: y in Remove(l, x) <==> y in l && y != x
    ensures x !in l ==> Remove(l, x) == l
  {
    if l != [] {
      assert l == [l[0]] + l[1..];
      RemoveMembers(l[1..], x);
      if l[0] != x { AddMembers(Remove(l[1..], x), l[0]); }
    }
  }

  lemma {:induction false} NoDupBefore(l: seq<Id>, j: nat)
    requires NoDup(l) && j < |l|
    ensures l[j] !in l[..j]
  {
    if j > 0 { NoDupBefore(l[1..], j - 1); }
  }

  lemma AddMembers(l: seq<Id>, x: Id)
    requires NoDup(l) && x !in l
    ensures NoDup([x] + l)
  {
    assert ([x] + l)[1..] == l;
  }

  /** How many blocks there are, and how many words of code they hold. */
  datatype Totals = Totals(count: nat, used: nat)

  ghost function Total(blocks: map<Id, Block>, s: set<Id>): Totals
    requires s <= blocks.Keys
  {
    if s == {} then Totals(0, 0) else
      var x :| x in s;
      var rest := Total(blocks, s - {x});
      Totals(rest.count + 1, rest.used + blocks[x].used)
  }

  lemma {:induction false} TotalAdd(blocks: map<Id, Block>, s: set<Id>, x: Id)
    requires s <= blocks.Keys && x in s
    ensures var rest := Total(blocks, s - {x});
            Total(blocks, s) == Totals(rest.count + 1, rest.used + blocks[x].used)
    decreases |s|
  {
    var m :| m in s && var rest := Total(blocks, s - {m});
                       Total(blocks, s) == Totals(rest.count + 1, rest.used + blocks[m].used);
    if m != x {
      TotalAdd(blocks, s - {m}, x);
      TotalAdd(blocks, s - {x}, m);
      assert s - {m} - {x} == s - {x} - {m};
    }
  }

  lemma {:induction false} TotalSame(a: map<Id, Block>, b: map<Id, Block>, s: set<Id>)
    requires s <= a.Keys && s <= b.Keys && forall x :: x in s ==> a[x].used == b[x].used
    ensures Total(a, s) == Total(b, s)
  {
    if x :| x in s {
      TotalSame(a, b, s - {x});
      TotalAdd(a, s, x);
      TotalAdd(b, s, x);
    }
  }

  lemma {:induction false} TotalCounts(blocks: map<Id, Block>, s: set<Id>)
    requires s <= blocks.Keys
    ensures Total(blocks, s).count == |s|
  {
    if x :| x in s {
      TotalCounts(blocks, s - {x});
      TotalAdd(blocks, s, x);
    }
  }

  // ---------------------------------------------------------------------------------------------
  // What the index promises
  // ---------------------------------------------------------------------------------------------

  predicate Shaped(b: Block) {
    |b.jumpIp| == 2 && |b.oldJumpIp| == 2 && |b.jumpsFrom| == 2 && !b.oldJumpIp[0].Code? && !b.oldJumpIp[1].Code?
  }

  predicate AllShaped(blocks: map<Id, Block>) {
    forall id :: id in blocks ==> Shaped(blocks[id])
  }

  /** The block is on its hash bucket. */
  predicate Hashed(hash: seq<seq<Id>>, blocks: map<Id, Block>, id: Id)
    requires |hash| > 0
  {
    id in blocks && id in hash[blocks[id].addr % |hash|]
  }

  /** The block is on page list i, if it belongs on one. */
  predicate Paged(pages: seq<seq<Id>>, i: nat, blocks: map<Id, Block>, id: Id)
    requires |pages| == PAGE_HASH_SIZE
  {
    id in blocks && (PageBucket(blocks[id], i).Some? ==> id in pages[PageBucket(blocks[id], i).value])
  }

  /** Bucket k holds the live blocks whose address hashes to k, each once. */
  ghost predicate HashOk(hash: seq<seq<Id>>, blocks: map<Id, Block>, live: set<Id>) {
    && |hash| > 0 && live <= blocks.Keys
    && (forall k :: 0 <= k < |hash| ==> NoDup(hash[k]))
    && (forall k, id {:trigger id in hash[k]} :: 0 <= k < |hash| && id in hash[k] ==> id in live && blocks[id].addr % |hash| == k)
    && (forall id {:trigger Hashed(hash, blocks, id)} :: id in live ==> Hashed(hash, blocks, id))
  }

  /** Page list i, bucket k, holds the live blocks that belong there, each once. */
  ghost predicate PagesOk(pages: seq<seq<Id>>, i: nat, blocks: map<Id, Block>, live: set<Id>) {
    && |pages| == PAGE_HASH_SIZE && live <= blocks.Keys
    && (forall k :: 0 <= k < |pages| ==> NoDup(pages[k]))
    && (forall k, id {:trigger id in pages[k]} :: 0 <= k < |pages| && id in pages[k] ==> id in live && PageBucket(blocks[id], i) == Some(k))
    && (forall id {:trigger Paged(pages, i, blocks, id)} :: id in live ==> Paged(pages, i, blocks, id))
  }

  /** Exit i of `b` is patched to jump to `c`. */
  predicate Leads(blocks: map<Id, Block>, b: Id, i: nat, c: Id) {
    b in blocks && i < |blocks[b].jumpIp| && blocks[b].jumpIp[i] == Code(c)
  }

  /** `b` is on the list of blocks whose exit i jumps to `c`. */
  predicate Listed(blocks: map<Id, Block>, c: Id, i: nat, b: Id) {
    c in blocks && i < |blocks[c].jumpsFrom| && b in blocks[c].jumpsFrom[i]
  }

  /** The patched exits of `sources` and the lists of incoming jumps of the live blocks say the same. */
  ghost predicate ChainsFrom(blocks: map<Id, Block>, sources: set<Id>, live: set<Id>, i: nat)
    requires AllShaped(blocks) && i < 2
  {
    && sources <= live <= blocks.Keys
    && (forall b, c :: b in sources && Leads(blocks, b, i, c) ==> c in live && Listed(blocks, c, i, b))
    && (forall b, c :: c in live && Listed(blocks, c, i, b) ==> b in sources && Leads(blocks, b, i, c))
    && (forall c :: c in live ==> NoDup(blocks[c].jumpsFrom[i]))
  }

  /** `id` is the live block at `addr`. */
  predicate LiveAt(blocks: map<Id, Block>, live: set<Id>, id: Id, addr: nat) {
    id in live && id in blocks && blocks[id].addr == addr
  }

  ghost predicate OneBlockPerAddress(blocks: map<Id, Block>, live: set<Id>) {
    forall a, b, addr :: LiveAt(blocks, live, a, addr) && LiveAt(blocks, live, b, addr) ==> a == b
  }

  ghost predicate JetsamOk(blocks: map<Id, Block>, live: set<Id>, jetsam: seq<Id>) {
    && NoDup(jetsam) && (forall id {:trigger id in blocks} :: id in blocks ==> id in live || id in jetsam)
    && (forall id {:trigger id in live} :: id in live ==> id in blocks && id !in jetsam && !blocks[id].isJetsam)
    && (forall id {:trigger id in jetsam} :: id in jetsam ==> id in blocks && blocks[id].isJetsam)
  }

  ghost predicate CountsOk(blocks: map<Id, Block>, live: set<Id>, numBlocks: nat, memUsed: nat) {
    live <= blocks.Keys && Total(blocks, live) == Totals(numBlocks, memUsed)
  }

  lemma BucketMembers(hash: seq<seq<Id>>, blocks: map<Id, Block>, live: set<Id>, k: nat)
    requires HashOk(hash, blocks, live) && k < |hash|
    ensures forall id :: id in hash[k] <==> id in live && blocks[id].addr % |hash| == k
  {
    forall id | id in live && blocks[id].addr % |hash| == k ensures id in hash[k] { assert Hashed(hash, blocks, id); }
  }

  lemma HashAdd(hash: seq<seq<Id>>, blocks: map<Id, Block>, live: set<Id>, id: Id)
    requires HashOk(hash, blocks, live) && id !in live && id in blocks
    ensures var k := blocks[id].addr % |hash|; HashOk(hash[k := [id] + hash[k]], blocks, live + {id})
  {
    var k := blocks[id].addr % |hash|;
    AddMembers(hash[k], id);
    forall x | x in live ensures Hashed(hash[k := [id] + hash[k]], blocks, x) { assert Hashed(hash, blocks, x); }
  }

  lemma HashRemove(hash: seq<seq<Id>>, blocks: map<Id, Block>, live: set<Id>, id: Id)
    requires HashOk(hash, blocks, live) && id in live
    ensures var k := blocks[id].addr % |hash|; HashOk(hash[k := Remove(hash[k], id)], blocks, live - {id})
  {
    var k := blocks[id].addr % |hash|;
    RemoveMembers(hash[k], id);
    forall x | x in live - {id} ensures Hashed(hash[k := Remove(hash[k], id)], blocks, x) { assert Hashed(hash, blocks, x); }
  }

  function PagesAdd(pages: seq<seq<Id>>, i: nat, b: Block, id: Id): seq<seq<Id>>
    requires |pages| == PAGE_HASH_SIZE
  {
    match PageBucket(b, i)
    case Some(k) => pages[k := [id] + pages[k]]
    case None => pages
  }

  function PagesRemove(pages: seq<seq<Id>>, i: nat, b: Block, id: Id): seq<seq<Id>>
    requires |pages| == PAGE_HASH_SIZE
  {
    match PageBucket(b, i)
    case Some(k) => pages[k := Remove(pages[k], id)]
    case None => pages
  }

  lemma PagesAddOk(pages: seq<seq<Id>>, i: nat, blocks: map<Id, Block>, live: set<Id>, id: Id)
    requires PagesOk(pages, i, blocks, live) && id !in live && id in blocks
    ensures PagesOk(PagesAdd(pages, i, blocks[id], id), i, blocks, live + {id})
  {
    match PageBucket(blocks[id], i) {
      case Some(k) => AddMembers(pages[k], id);
      case None =>
    }
    forall x | x in live ensures Paged(PagesAdd(pages, i, blocks[id], id), i, blocks, x) { assert Paged(pages, i, blocks, x); }
  }

  lemma PagesRemoveOk(pages: seq<seq<Id>>, i: nat, blocks: map<Id, Block>, live: set<Id>, id: Id)
    requires PagesOk(pages, i, blocks, live) && id in live
    ensures PagesOk(PagesRemove(pages, i, blocks[id], id), i, blocks, live - {id})
  {
    match PageBucket(blocks[id], i) {
      case Some(k) => RemoveMembers(pages[k], id);
      case None =>
    }
    forall x | x in live - {id} ensures Paged(PagesRemove(pages, i, blocks[id], id), i, blocks, x) {
      assert Paged(pages, i, blocks, x);
    }
  }

  /** The fields the indexes look at are the same. */
  predicate SamePlace(a: map<Id, Block>, b: map<Id, Block>) {
    a.Keys == b.Keys && forall id :: id in a ==>
      a[id].addr == b[id].addr && a[id].endAddr == b[id].endAddr && a[id].used == b[id].used
  }

  lemma SameHash(hash: seq<seq<Id>>, a: map<Id, Block>, b: map<Id, Block>, live: set<Id>)
    requires SamePlace(a, b) && HashOk(hash, a, live)
    ensures HashOk(hash, b, live)
  {
    forall id | id in live ensures Hashed(hash, b, id) { assert Hashed(hash, a, id); }
  }

  lemma SamePages(pages: seq<seq<Id>>, i: nat, a: map<Id, Block>, b: map<Id, Block>, live: set<Id>)
    requires SamePlace(a, b) && PagesOk(pages, i, a, live)
    ensures PagesOk(pages, i, b, live)
  {
    forall id | id in live ensures Paged(pages, i, b, id) { assert Paged(pages, i, a, id); }
  }

  /** `b` differs from `a` only in the exits and incoming lists of index i. */
  predicate OnlyExits(a: map<Id, Block>, b: map<Id, Block>, i: nat)
    requires AllShaped(a) && AllShaped(b) && i < 2
  {
    SamePlace(a, b) && forall id :: id in a ==>
      && a[id].oldJumpIp == b[id].oldJumpIp && a[id].isJetsam == b[id].isJetsam
      && a[id].jumpIp[1 - i] == b[id].jumpIp[1 - i] && a[id].jumpsFrom[1 - i] == b[id].jumpsFrom[1 - i]
  }

  /** The exits once `id` is gone: those that led to it hold the guest address again. */
  predicate ExitsRestored(a: map<Id, Block>, b: map<Id, Block>, live: set<Id>, id: Id, i: nat)
    requires AllShaped(a) && AllShaped(b) && i < 2
  {
    a.Keys == b.Keys && forall p :: p in a ==>
      b[p].jumpIp[i] == if p in live && p != id && a[p].jumpIp[i] == Code(id) then a[p].oldJumpIp[i] else a[p].jumpIp[i]
  }

  /** Everything but the hash and page lists. */
  ghost predicate Consistent(blocks: map<Id, Block>, live: set<Id>, jetsam: seq<Id>, numBlocks: nat, memUsed: nat) {
    && AllShaped(blocks) && OneBlockPerAddress(blocks, live) && JetsamOk(blocks, live, jetsam)
    && ChainsFrom(blocks, live, live, 0) && ChainsFrom(blocks, live, live, 1)
    && CountsOk(blocks, live, numBlocks, memUsed)
  }

  class Asbestos {
    var blocks: map<Id, Block>
    var hash: seq<seq<Id>>
    var pages: seq<seq<seq<Id>>>
    var jetsam: seq<Id>
    var numBlocks: nat
    var memUsed: nat
    var invalidateGen: nat
    ghost var live: set<Id>

    ghost predicate Indexed()
      reads this`hash, this`pages, this`blocks, this`live
    {
      IndexOk(hash, pages, blocks, live)
    }

    ghost predicate Valid()
      reads this`hash, this`pages, this`blocks, this`live, this`jetsam, this`numBlocks, this`memUsed
    {
      Indexed() && Consistent(blocks, live, jetsam, numBlocks, memUsed)
    }

    constructor ()
      ensures Valid() && live == {} && blocks == map[] && jetsam == [] && invalidateGen == 0
    {
      blocks, jetsam, live := map[], [], {};
      hash := seq(INITIAL_HASH_SIZE, _ => []);
      pages := [seq(PAGE_HASH_SIZE, _ => []), seq(PAGE_HASH_SIZE, _ => [])];
      numBlocks, memUsed, invalidateGen := 0, 0, 0;
    }

    /** Links every block of one old bucket onto the new table. */
    method MoveBucket(newHash0: seq<seq<Id>>, bucket: seq<Id>, ghost moved: set<Id>) returns (newHash: seq<seq<Id>>)
      requires HashOk(newHash0, blocks, moved) && NoDup(bucket)
      requires forall id :: id in bucket ==> id in blocks && id !in moved
      ensures |newHash| == |newHash0| && HashOk(newHash, blocks, moved + set id | id in bucket)
    {
      newHash := newHash0;
      var j := 0;
      ghost var done := moved;
      while j < |bucket|
        invariant j <= |bucket| && |newHash| == |newHash0| && HashOk(newHash, blocks, done)
        invariant done == moved + set x | x in bucket[..j]
      {
        var b := bucket[j];
        NoDupBefore(bucket, j);
        HashAdd(newHash, blocks, done, b);
        var k := blocks[b].addr % |newHash|;
        newHash := newHash[k := [b] + newHash[k]];
        assert bucket[..j + 1] == bucket[..j] + [b];
        done, j := done + {b}, j + 1;
      }
      assert bucket[..j] == bucket;
    }

    /** Rehashes every block; the blocks keep their identity and the other indexes. */
    method ResizeHash(newSize: nat)
      requires Indexed() && newSize > 0
      modifies this`hash
      ensures Indexed() && |hash| == newSize
    {
      var newHash: seq<seq<Id>> := seq(newSize, _ => []);
      ghost var moved: set<Id> := {};
      var i := 0;
      while i < |hash|
        invariant hash == old(hash) && i <= |hash| && |newHash| == newSize && HashOk(newHash, blocks, moved)
        invariant forall id :: id in moved <==> id in live && blocks[id].addr % |hash| < i
      {
        BucketMembers(hash, blocks, live, i);
        newHash := MoveBucket(newHash, hash[i], moved);
        moved := moved + set id | id in hash[i];
        i := i + 1;
      }
      assert moved == live;
      hash := newHash;
    }

    /** Keeps the average chain length at one to two. */
    method ResizeIfFull()
      requires Indexed()
      modifies this`hash
      ensures Indexed() && |hash| == if numBlocks >= |old(hash)| * 2 then |old(hash)| * 2 else |old(hash)|
    {
      if numBlocks >= |hash| * 2 {
        ResizeHash(|hash| * 2);
      }
    }

    /** Puts a new block on its hash bucket and on its one or two page lists. */
    method Link(id: Id, block: Block)
      requires Indexed() && id !in blocks
      modifies this`hash, this`pages, this`blocks, this`live
      ensures Indexed() && live == old(live) + {id} && blocks == old(blocks)[id := block] && |hash| == |old(hash)|
    {
      InsertKeepsIndex(hash, pages, blocks, live, id, block);
      blocks := blocks[id := block];
      HashAdd(hash, blocks, live, id);
      var k := block.addr % |hash|;
      hash := hash[k := [id] + hash[k]];
      PagesAddOk(pages[0], 0, blocks, live, id);
      PagesAddOk(pages[1], 1, blocks, live, id);
      var first := Page(block.addr) % PAGE_HASH_SIZE;
      pages := pages[0 := pages[0][first := [id] + pages[0][first]]];
      if Page(block.addr) != Page(block.endAddr) {
        var last := Page(block.endAddr) % PAGE_HASH_SIZE;
        pages := pages[1 := pages[1][last := [id] + pages[1][last]]];
      }
      live := live + {id};
    }

    /** fiber_insert: the caller has just looked the address up and found nothing. */
    method Insert(id: Id, block: Block)
      requires Valid() && id !in blocks && Shaped(block) && block.jumpIp == block.oldJumpIp
      requires block.jumpsFrom == [[], []] && !block.isJetsam
      requires forall b :: !LiveAt(blocks, live, b, block.addr)
      modifies this
      ensures Valid() && live == old(live) + {id} && blocks == old(blocks)[id := block]
      ensures jetsam == old(jetsam) && invalidateGen == old(invalidateGen)
      ensures |hash| == if old(numBlocks) + 1 >= |old(hash)| * 2 then |old(hash)| * 2 else |old(hash)|
    {
      InsertConsistent(blocks, live, jetsam, numBlocks, memUsed, id, block);
      memUsed := memUsed + block.used;
      numBlocks := numBlocks + 1;
      ResizeIfFull();
      Link(id, block);
    }

    /** fiber_lookup: the live block at an address, if there is one. */
    method Lookup(addr: nat) returns (r: Option<Id>)
      requires Indexed()
      ensures r.Some? ==> LiveAt(blocks, live, r.value, addr)
      ensures r.None? ==> forall id :: !LiveAt(blocks, live, id, addr)
    {
      var bucket := hash[addr % |hash|];
      BucketMembers(hash, blocks, live, addr % |hash|);
      var i := 0;
      while i < |bucket|
        invariant i <= |bucket| && forall j :: 0 <= j < i ==> blocks[bucket[j]].addr != addr
      {
        if blocks[bucket[i]].addr == addr { return Some(bucket[i]); }
        i := i + 1;
      }
      assert forall id :: LiveAt(blocks, live, id, addr) ==> id in bucket;
      return None;
    }

    /** The part of fiber_block_disconnect for one exit index: `id` leaves the list its own exit is on,
        and every exit that leads to it holds the guest address again. */
    method DisconnectExits(id: Id, i: nat)
      requires AllShaped(blocks) && i < 2 && ChainsFrom(blocks, live, live, i) && id in live
      modifies this`blocks
      ensures AllShaped(blocks) && OnlyExits(old(blocks), blocks, i)
      ensures ChainsFrom(blocks, live - {id}, live - {id}, i)
      ensures ExitsRestored(old(blocks), blocks, live, id, i)
    {
      UnlinkKeeps(blocks, live, id, i);
      blocks := Unlink(blocks, id, i);
      while blocks[id].jumpsFrom[i] != []
        invariant AllShaped(blocks) && OnlyExits(old(blocks), blocks, i)
        invariant ChainsFrom(blocks, live - {id}, live, i)
        invariant ExitsPartlyRestored(old(blocks), blocks, live, id, i)
        decreases |blocks[id].jumpsFrom[i]|
      {
        RestoreKeeps(old(blocks), blocks, live, id, i);
        var p, m := blocks[id].jumpsFrom[i][0], blocks;
        if m[p].jumpIp[i] != NoSlot {
          m := m[p := m[p].(jumpIp := m[p].jumpIp[i := m[p].oldJumpIp[i]])];
        }
        m := m[id := m[id].(jumpsFrom := m[id].jumpsFrom[i := m[id].jumpsFrom[i][1..]])];
        blocks := m;
      }
      AllRestored(old(blocks), blocks, live, id, i);
    }

    /** Takes a block off its hash bucket and its page lists. */
    method Unlist(id: Id)
      requires Indexed() && id in live && id in blocks
      modifies this`hash, this`pages, this`live
      ensures Indexed() && live == old(live) - {id} && |hash| == |old(hash)|
    {
      var block := blocks[id];
      HashRemove(hash, blocks, live, id);
      var k := block.addr % |hash|;
      hash := hash[k := Remove(hash[k], id)];
      PagesRemoveOk(pages[0], 0, blocks, live, id);
      PagesRemoveOk(pages[1], 1, blocks, live, id);
      var first := Page(block.addr) % PAGE_HASH_SIZE;
      pages := pages[0 := pages[0][first := Remove(pages[0][first], id)]];
      if Page(block.addr) != Page(block.endAddr) {
        var last := Page(block.endAddr) % PAGE_HASH_SIZE;
        pages := pages[1 := pages[1][last := Remove(pages[1][last], id)]];
      }
      live := live - {id};
    }

    /** Both exit indexes of fiber_block_disconnect. */
    method DisconnectChains(id: Id)
      requires AllShaped(blocks) && id in live
      requires ChainsFrom(blocks, live, live, 0) && ChainsFrom(blocks, live, live, 1)
      modifies this`blocks
      ensures Disconnected(old(blocks), blocks, live, id)
    {
      ghost var a := blocks;
      DisconnectExits(id, 0);
      ghost var b := blocks;
      OtherIndexKeeps(a, b, live, live, 1);
      DisconnectExits(id, 1);
      OtherIndexKeeps(b, blocks, live - {id}, live - {id}, 0);
      BothDisconnected(a, b, blocks, live, id);
    }

    /** fiber_block_disconnect: the block leaves the totals, the indexes and every list of jumps. */
    method Disconnect(id: Id)
      requires Indexed() && AllShaped(blocks) && id in live && id in blocks
      requires ChainsFrom(blocks, live, live, 0) && ChainsFrom(blocks, live, live, 1)
      requires CountsOk(blocks, live, numBlocks, memUsed)
      modifies this`blocks, this`hash, this`pages, this`live, this`numBlocks, this`memUsed
      ensures Indexed() && live == old(live) - {id} && Disconnected(old(blocks), blocks, old(live), id)
      ensures Total(old(blocks), live) == Totals(numBlocks, memUsed) && |hash| == |old(hash)|
    {
      TotalAdd(blocks, live, id);
      memUsed := memUsed - blocks[id].used;
      numBlocks := numBlocks - 1;
      ghost var was := blocks;
      DisconnectChains(id);
      SameIndex(hash, pages, was, blocks, live);
      Unlist(id);
    }

    /** As above, for a block about to be marked: what is left to do keeps the promises. */
    method DisconnectLive(id: Id)
      requires Valid() && id in live && id in blocks
      modifies this`blocks, this`hash, this`pages, this`live, this`numBlocks, this`memUsed
      ensures live == old(live) - {id} && |hash| == |old(hash)| && SamePlace(old(blocks), blocks)
      ensures IndexOk(hash, pages, Marked(blocks, id), live)
      ensures Consistent(Marked(blocks, id), live, [id] + jetsam, numBlocks, memUsed)
    {
      ghost var was, liveBefore := blocks, live;
      Disconnect(id);
      EvictConsistent(was, blocks, liveBefore, jetsam, id, numBlocks, memUsed);
      SameIndex(hash, pages, blocks, Marked(blocks, id), live);
    }

    /** What an invalidation does to a block: disconnected, marked, and put on the jetsam list. */
    method Evict(id: Id)
      requires Valid() && id in live && id in blocks
      modifies this
      ensures Valid() && live == old(live) - {id} && jetsam == [id] + old(jetsam)
      ensures SamePlace(old(blocks), blocks) && invalidateGen == old(invalidateGen) && |hash| == |old(hash)|
    {
      DisconnectLive(id);
      blocks := blocks[id := blocks[id].(isJetsam := true)];
      jetsam := [id] + jetsam;
    }

    /** One step of the walk over a page list. */
    method EvictHead(i: nat, k: nat) returns (ghost id: Id)
      requires Valid() && i < 2 && k < PAGE_HASH_SIZE && pages[i][k] != []
      modifies this
      ensures Valid() && id in old(live) && live == old(live) - {id} && jetsam == [id] + old(jetsam)
      ensures SamePlace(old(blocks), blocks) && invalidateGen == old(invalidateGen)
      ensures InBucket(old(blocks), id, i, k)
    {
      HeadIsLive(hash, pages, i, k, blocks, live);
      id := pages[i][k][0];
      Evict(pages[i][k][0]);
    }

    /** The walk over one page list. */
    method EvictList(i: nat, k: nat) returns (did: bool)
      requires Valid() && i < 2 && k < PAGE_HASH_SIZE
      modifies this
      ensures Valid() && live == Outside(old(blocks), old(live), i, k) && did == (live != old(live))
      ensures SamePlace(old(blocks), blocks) && invalidateGen == old(invalidateGen)
      ensures EvictedOnto(old(jetsam), jetsam, old(live), live)
    {
      did := false;
      while pages[i][k] != []
        invariant Valid() && did == (live != old(live))
        invariant GoneFrom(old(blocks), old(live), live, i, k)
        invariant SamePlace(old(blocks), blocks) && invalidateGen == old(invalidateGen)
        invariant EvictedOnto(old(jetsam), jetsam, old(live), live)
        decreases live
      {
        ghost var jetsam0, live0, blocks0 := jetsam, live, blocks;
        ghost var id := EvictHead(i, k);
        EvictedOneMore(old(jetsam), jetsam0, old(live), live0, id);
        GoneOneMore(old(blocks), blocks0, old(live), live0, id, i, k);
        did := true;
      }
      NoneLeft(hash, pages, i, k, old(blocks), blocks, old(live), live);
    }

    /** Both lists of one bucket of the page hash. */
    method EvictBucket(k: nat) returns (did: bool)
      requires Valid() && k < PAGE_HASH_SIZE
      modifies this
      ensures Valid() && live == OffBucket(old(blocks), old(live), k) && did == (live != old(live))
      ensures SamePlace(old(blocks), blocks) && invalidateGen == old(invalidateGen)
      ensures EvictedOnto(old(jetsam), jetsam, old(live), live)
    {
      did := EvictList(0, k);
      ghost var jetsam0, live0, blocks0 := jetsam, live, blocks;
      var more := EvictList(1, k);
      BothLists(old(blocks), blocks0, old(live), k);
      EvictedAgain(old(jetsam), jetsam0, jetsam, old(live), live0, live);
      did := did || more;
    }

    /** The loop over the pages: those that share a bucket with one of the range lose their blocks too. */
    method EvictRange(start: nat, end: nat) returns (did: bool)
      requires Valid()
      modifies this
      ensures Valid() && Swept(old(blocks), old(live), old(jetsam), blocks, live, jetsam, start, end)
      ensures did == (live != old(live)) && invalidateGen == old(invalidateGen)
    {
      ghost var was, liveWas, jetsamWas := blocks, live, jetsam;
      did := false;
      var page := start;
      NothingSwept(was, liveWas, jetsamWas, start, end);
      while page < end
        invariant Valid() && (page == start || start < page <= end) && invalidateGen == old(invalidateGen)
        invariant Swept(was, liveWas, jetsamWas, blocks, live, jetsam, start, page) && did == (live != liveWas)
      {
        ghost var mid, liveMid, jetsamMid := blocks, live, jetsam;
        var more := EvictBucket(page % PAGE_HASH_SIZE);
        SweptMore(was, liveWas, jetsamWas, mid, liveMid, jetsamMid, blocks, live, jetsam, start, page);
        did := did || more;
        page := page + 1;
      }
    }

    /** asbestos_invalidate_range */
    method InvalidateRange(start: nat, end: nat)
      requires Valid()
      modifies this
      ensures Valid() && Swept(old(blocks), old(live), old(jetsam), blocks, live, jetsam, start, end)
      ensures invalidateGen == old(invalidateGen) + if live != old(live) then 1 else 0
    {
      var did := EvictRange(start, end);
      if did {
        invalidateGen := invalidateGen + 1;
      }
    }

    /** asbestos_invalidate_page: nothing to do when both lists of the page's bucket are empty. */
    method InvalidatePage(page: nat)
      requires Valid()
      modifies this
      ensures Valid() && Swept(old(blocks), old(live), old(jetsam), blocks, live, jetsam, page, page + 1)
      ensures invalidateGen == old(invalidateGen) + if live != old(live) then 1 else 0
    {
      var k := page % PAGE_HASH_SIZE;
      if pages[0][k] == [] && pages[1][k] == [] {
        EmptyBucket(hash, pages, page, blocks, live);
        return;
      }
      InvalidateRange(page, page + 1);
    }

    /** The loop over every bucket. */
    method EvictAll() returns (did: bool)
      requires Valid()
      modifies this
      ensures Valid() && Swept(old(blocks), old(live), old(jetsam), blocks, live, jetsam, 0, PAGE_HASH_SIZE)
      ensures did == (live != old(live)) && invalidateGen == old(invalidateGen)
    {
      ghost var was, liveWas, jetsamWas := blocks, live, jetsam;
      did := false;
      var bucket := 0;
      NothingSwept(was, liveWas, jetsamWas, 0, 0);
      while bucket < PAGE_HASH_SIZE
        invariant Valid() && bucket <= PAGE_HASH_SIZE && invalidateGen == old(invalidateGen)
        invariant Swept(was, liveWas, jetsamWas, blocks, live, jetsam, 0, bucket) && did == (live != liveWas)
      {
        ghost var mid, liveMid, jetsamMid := blocks, live, jetsam;
        var more := EvictBucket(bucket);
        assert bucket % PAGE_HASH_SIZE == bucket;
        SweptMore(was, liveWas, jetsamWas, mid, liveMid, jetsamMid, blocks, live, jetsam, 0, bucket);
        did := did || more;
        bucket := bucket + 1;
      }
    }

    /** asbestos_invalidate_all */
    method InvalidateAll()
      requires Valid()
      modifies this
      ensures Valid() && live == {} && invalidateGen == old(invalidateGen) + if old(live) != {} then 1 else 0
      ensures SamePlace(old(blocks), blocks) && EvictedOnto(old(jetsam), jetsam, old(live), live)
    {
      AllBuckets(blocks, live);
      var did := EvictAll();
      if did {
        invalidateGen := invalidateGen + 1;
      }
    }

    /** The dispatch loop's attempt to make `last` jump straight to `block`: no pointer to a jetsam block
        is minted, and a patched exit is entered on the list of incoming jumps of its target. */
    method Chain(last: Id, block: Id)
      requires Valid() && last in blocks && block in blocks
      modifies this`blocks
      ensures Valid() && last in old(blocks) && block in old(blocks)
      ensures blocks == if last in live && block in live then Chained(old(blocks), last, block) else old(blocks)
    {
      if !blocks[last].isJetsam && !blocks[block].isJetsam {
        ChainedKeeps(hash, pages, blocks, live, jetsam, numBlocks, memUsed, last, block);
        blocks := Chained(blocks, last, block);
      }
    }

    /** fiber_free_jetsam: what is left is the live blocks. */
    method FreeJetsam()
      requires Valid()
      modifies this`blocks, this`jetsam
      ensures Valid() && jetsam == [] && blocks.Keys == live
      ensures forall id :: id in live ==> id in old(blocks) && blocks[id] == old(blocks)[id]
    {
      while jetsam != []
        invariant Valid() && forall id :: id in live ==> id in old(blocks) && id in blocks && blocks[id] == old(blocks)[id]
        decreases |jetsam|
      {
        FreeKeeps(hash, pages, blocks, live, jetsam, numBlocks, memUsed);
        blocks, jetsam := blocks - {jetsam[0]}, jetsam[1..];
      }
    }
  }

  function Marked(blocks: map<Id, Block>, id: Id): map<Id, Block>
    requires id in blocks
  {
    blocks[id := blocks[id].(isJetsam := true)]
  }

  ghost predicate IndexOk(hash: seq<seq<Id>>, pages: seq<seq<seq<Id>>>, blocks: map<Id, Block>, live: set<Id>) {
    |pages| == 2 && HashOk(hash, blocks, live) && PagesOk(pages[0], 0, blocks, live) && PagesOk(pages[1], 1, blocks, live)
  }

  /** Block `id` belongs on page list i, bucket k. */
  predicate InBucket(blocks: map<Id, Block>, id: Id, i: nat, k: nat) {
    id in blocks && PageBucket(blocks[id], i) == Some(k)
  }

  ghost function Outside(blocks: map<Id, Block>, live: set<Id>, i: nat, k: nat): set<Id> {
    set id | id in live && !InBucket(blocks, id, i, k)
  }

  ghost function OffBucket(blocks: map<Id, Block>, live: set<Id>, k: nat): set<Id> {
    set id | id in live && !InBucket(blocks, id, 0, k) && !InBucket(blocks, id, 1, k)
  }

  /** The page shares a bucket with a page the block is listed under. */
  predicate Meets(blocks: map<Id, Block>, id: Id, page: nat) {
    InBucket(blocks, id, 0, page % PAGE_HASH_SIZE) || InBucket(blocks, id, 1, page % PAGE_HASH_SIZE)
  }

  ghost predicate Hit(blocks: map<Id, Block>, id: Id, start: nat, end: nat) {
    exists page: nat :: start <= page < end && Meets(blocks, id, page)
  }

  ghost function OffRange(blocks: map<Id, Block>, live: set<Id>, start: nat, end: nat): set<Id> {
    set id | id in live && !Hit(blocks, id, start, end)
  }

  lemma BothLists(before: map<Id, Block>, blocks: map<Id, Block>, live: set<Id>, k: nat)
    requires SamePlace(before, blocks)
    ensures Outside(blocks, Outside(before, live, 0, k), 1, k) == OffBucket(before, live, k)
  {
    forall id | id in live ensures InBucket(before, id, 1, k) == InBucket(blocks, id, 1, k) {
      SameBucket(before, blocks, id, 1, k);
    }
  }

  /** What an invalidation of [start, end) does to the blocks, the live set and the jetsam list. */
  ghost predicate Swept(a: map<Id, Block>, liveA: set<Id>, jetsamA: seq<Id>,
                        b: map<Id, Block>, liveB: set<Id>, jetsamB: seq<Id>, start: nat, end: nat) {
    SamePlace(a, b) && liveB == OffRange(a, liveA, start, end) && EvictedOnto(jetsamA, jetsamB, liveA, liveB)
  }

  lemma NothingSwept(blocks: map<Id, Block>, live: set<Id>, jetsam: seq<Id>, start: nat, end: nat)
    ensures Swept(blocks, live, jetsam, blocks, live, jetsam, start, start)
    ensures end <= start ==> Swept(blocks, live, jetsam, blocks, live, jetsam, start, end)
  {}

  lemma SweptMore(a: map<Id, Block>, liveA: set<Id>, jetsamA: seq<Id>, b: map<Id, Block>, liveB: set<Id>, jetsamB: seq<Id>,
                  c: map<Id, Block>, liveC: set<Id>, jetsamC: seq<Id>, start: nat, page: nat)
    requires Swept(a, liveA, jetsamA, b, liveB, jetsamB, start, page) && start <= page && SamePlace(b, c)
    requires liveC == OffBucket(b, liveB, page % PAGE_HASH_SIZE) && EvictedOnto(jetsamB, jetsamC, liveB, liveC)
    ensures Swept(a, liveA, jetsamA, c, liveC, jetsamC, start, page + 1) && liveC <= liveB <= liveA
  {
    forall id | id in liveA
      ensures Hit(a, id, start, page + 1) <==> Hit(a, id, start, page) || Meets(b, id, page)
    {
      SameBucket(a, b, id, 0, page % PAGE_HASH_SIZE);
      SameBucket(a, b, id, 1, page % PAGE_HASH_SIZE);
      assert Meets(a, id, page) == Meets(b, id, page);
    }
  }

  lemma AllBuckets(blocks: map<Id, Block>, live: set<Id>)
    requires live <= blocks.Keys
    ensures OffRange(blocks, live, 0, PAGE_HASH_SIZE) == {}
  {
    forall id | id in live ensures Hit(blocks, id, 0, PAGE_HASH_SIZE) {
      assert Meets(blocks, id, Page(blocks[id].addr) % PAGE_HASH_SIZE);
    }
  }

  lemma EmptyBucket(hash: seq<seq<Id>>, pages: seq<seq<seq<Id>>>, page: nat, blocks: map<Id, Block>, live: set<Id>)
    requires IndexOk(hash, pages, blocks, live)
    requires var k := page % PAGE_HASH_SIZE; pages[0][k] == [] && pages[1][k] == []
    ensures OffRange(blocks, live, page, page + 1) == live
  {
    var k := page % PAGE_HASH_SIZE;
    forall id | id in live ensures !InBucket(blocks, id, 0, k) && !InBucket(blocks, id, 1, k) {
      assert Paged(pages[0], 0, blocks, id) && Paged(pages[1], 1, blocks, id);
    }
  }

  lemma EvictedAgain(a: seq<Id>, b: seq<Id>, c: seq<Id>, liveA: set<Id>, liveB: set<Id>, liveC: set<Id>)
    requires EvictedOnto(a, b, liveA, liveB) && EvictedOnto(b, c, liveB, liveC)
    requires liveC <= liveB <= liveA
    ensures EvictedOnto(a, c, liveA, liveC)
  {}

  /** Exit i of `last`, if it still holds the guest address of `block`, now jumps to it. */
  function ChainExit(blocks: map<Id, Block>, last: Id, block: Id, i: nat): map<Id, Block>
    requires AllShaped(blocks) && i < 2 && last in blocks && block in blocks
  {
    if blocks[last].jumpIp[i] == Guest(blocks[block].addr) then
      Enlist(SetExit(blocks, last, i, Code(block)), block, i, last)
    else blocks
  }

  function SetExit(blocks: map<Id, Block>, last: Id, i: nat, slot: Slot): map<Id, Block>
    requires AllShaped(blocks) && i < 2 && last in blocks
  {
    blocks[last := blocks[last].(jumpIp := blocks[last].jumpIp[i := slot])]
  }

  function Enlist(blocks: map<Id, Block>, block: Id, i: nat, last: Id): map<Id, Block>
    requires AllShaped(blocks) && i < 2 && block in blocks
  {
    blocks[block := blocks[block].(jumpsFrom := blocks[block].jumpsFrom[i := [last] + blocks[block].jumpsFrom[i]])]
  }

  lemma SetExitFrame(blocks: map<Id, Block>, last: Id, i: nat, slot: Slot)
    requires AllShaped(blocks) && i < 2 && last in blocks
    ensures AllShaped(SetExit(blocks, last, i, slot)) && OnlyExits(blocks, SetExit(blocks, last, i, slot), i)
  {}

  lemma EnlistFrame(blocks: map<Id, Block>, block: Id, i: nat, last: Id)
    requires AllShaped(blocks) && i < 2 && block in blocks
    ensures AllShaped(Enlist(blocks, block, i, last)) && OnlyExits(blocks, Enlist(blocks, block, i, last), i)
  {}

  lemma OnlyExitsTwice(a: map<Id, Block>, b: map<Id, Block>, c: map<Id, Block>, i: nat)
    requires AllShaped(a) && AllShaped(b) && AllShaped(c) && i < 2 && OnlyExits(a, b, i) && OnlyExits(b, c, i)
    ensures OnlyExits(a, c, i)
  {}

  lemma ChainExitFrame(blocks: map<Id, Block>, last: Id, block: Id, i: nat)
    requires AllShaped(blocks) && i < 2 && last in blocks && block in blocks
    ensures AllShaped(ChainExit(blocks, last, block, i)) && OnlyExits(blocks, ChainExit(blocks, last, block, i), i)
  {
    var patched := SetExit(blocks, last, i, Code(block));
    SetExitFrame(blocks, last, i, Code(block));
    EnlistFrame(patched, block, i, last);
    OnlyExitsTwice(blocks, patched, Enlist(patched, block, i, last), i);
  }

  function Chained(blocks: map<Id, Block>, last: Id, block: Id): map<Id, Block>
    requires AllShaped(blocks) && last in blocks && block in blocks
  {
    ChainExitFrame(blocks, last, block, 0);
    ChainExit(ChainExit(blocks, last, block, 0), last, block, 1)
  }

  /** Chaining turns exactly the exits of `last` that hold the address of `block` into jumps to it. */
  lemma ChainedExits(blocks: map<Id, Block>, last: Id, block: Id, p: Id, i: nat)
    requires AllShaped(blocks) && last in blocks && block in blocks && p in blocks && i < 2
    ensures var after, there := Chained(blocks, last, block), Guest(blocks[block].addr);
            && AllShaped(after) && p in after
            && after[p].jumpIp[i] == (if p == last && blocks[p].jumpIp[i] == there then Code(block) else blocks[p].jumpIp[i])
  {
    var mid := ChainExit(blocks, last, block, 0);
    ChainExitFrame(blocks, last, block, 0);
    ChainExitFrame(mid, last, block, 1);
    if i != 0 { assert i == 1; }
  }

  lemma ChainExitChains(blocks: map<Id, Block>, live: set<Id>, last: Id, block: Id, i: nat)
    requires AllShaped(blocks) && i < 2 && ChainsFrom(blocks, live, live, i) && last in live && block in live
    ensures ChainsFrom(ChainExit(blocks, last, block, i), live, live, i)
  {
    var after := ChainExit(blocks, last, block, i);
    if blocks[last].jumpIp[i] == Guest(blocks[block].addr) {
      assert Listed(blocks, block, i, last) ==> Leads(blocks, last, i, block);
      AddMembers(blocks[block].jumpsFrom[i], last);
      forall b, c | b in live && Leads(after, b, i, c) ensures c in live && Listed(after, c, i, b) {
        if b != last { assert Leads(blocks, b, i, c) && Listed(blocks, c, i, b); }
      }
      forall b, c | c in live && Listed(after, c, i, b) ensures b in live && Leads(after, b, i, c) {
        if b != last || c != block { assert Listed(blocks, c, i, b) && Leads(blocks, b, i, c); }
      }
    }
  }

  lemma ChainExitKeeps(hash: seq<seq<Id>>, pages: seq<seq<seq<Id>>>, blocks: map<Id, Block>, live: set<Id>, jetsam: seq<Id>,
                       count: nat, used: nat, last: Id, block: Id, i: nat)
    requires IndexOk(hash, pages, blocks, live) && Consistent(blocks, live, jetsam, count, used)
    requires i < 2 && last in live && block in live
    ensures var after := ChainExit(blocks, last, block, i);
            IndexOk(hash, pages, after, live) && Consistent(after, live, jetsam, count, used)
  {
    var after := ChainExit(blocks, last, block, i);
    ChainExitFrame(blocks, last, block, i);
    if i == 0 {
      OtherIndexKeeps(blocks, after, live, live, 1);
      ChainExitChains(blocks, live, last, block, 0);
    } else {
      assert i == 1;
      OtherIndexKeeps(blocks, after, live, live, 0);
      ChainExitChains(blocks, live, last, block, 1);
    }
    SameIndex(hash, pages, blocks, after, live);
    TotalSame(blocks, after, live);
    assert forall b, addr :: LiveAt(after, live, b, addr) ==> LiveAt(blocks, live, b, addr);
  }

  lemma ChainedKeeps(hash: seq<seq<Id>>, pages: seq<seq<seq<Id>>>, blocks: map<Id, Block>, live: set<Id>, jetsam: seq<Id>,
                     count: nat, used: nat, last: Id, block: Id)
    requires IndexOk(hash, pages, blocks, live) && Consistent(blocks, live, jetsam, count, used)
    requires last in live && block in live
    ensures var after := Chained(blocks, last, block);
            IndexOk(hash, pages, after, live) && Consistent(after, live, jetsam, count, used)
  {
    ChainExitFrame(blocks, last, block, 0);
    ChainExitKeeps(hash, pages, blocks, live, jetsam, count, used, last, block, 0);
    ChainExitKeeps(hash, pages, ChainExit(blocks, last, block, 0), live, jetsam, count, used, last, block, 1);
  }

  lemma FreeKeepsChains(blocks: map<Id, Block>, live: set<Id>, x: Id, i: nat)
    requires AllShaped(blocks) && i < 2 && ChainsFrom(blocks, live, live, i) && x !in live
    ensures AllShaped(blocks - {x}) && ChainsFrom(blocks - {x}, live, live, i)
  {
    var after := blocks - {x};
    forall b, c | b in live && Leads(after, b, i, c) ensures c in live && Listed(after, c, i, b) {
      assert Leads(blocks, b, i, c) && Listed(blocks, c, i, b);
    }
    forall b, c | c in live && Listed(after, c, i, b) ensures b in live && Leads(after, b, i, c) {
      assert Listed(blocks, c, i, b) && Leads(blocks, b, i, c);
    }
  }

  lemma FreeKeepsIndex(hash: seq<seq<Id>>, pages: seq<seq<seq<Id>>>, blocks: map<Id, Block>, live: set<Id>, x: Id)
    requires IndexOk(hash, pages, blocks, live) && x !in live
    ensures IndexOk(hash, pages, blocks - {x}, live)
  {
    var after := blocks - {x};
    forall y | y in live
      ensures Hashed(hash, after, y) && Paged(pages[0], 0, after, y) && Paged(pages[1], 1, after, y)
    {
      assert Hashed(hash, blocks, y) && Paged(pages[0], 0, blocks, y) && Paged(pages[1], 1, blocks, y);
    }
  }

  lemma FreeKeepsJetsam(blocks: map<Id, Block>, live: set<Id>, jetsam: seq<Id>)
    requires JetsamOk(blocks, live, jetsam) && jetsam != []
    ensures jetsam[0] !in live && JetsamOk(blocks - {jetsam[0]}, live, jetsam[1..])
  {
    assert jetsam[0] in jetsam;
    assert jetsam == [jetsam[0]] + jetsam[1..];
    assert forall id :: id in jetsam <==> id == jetsam[0] || id in jetsam[1..];
  }

  lemma FreeKeepsUnique(blocks: map<Id, Block>, live: set<Id>, x: Id)
    requires OneBlockPerAddress(blocks, live)
    ensures OneBlockPerAddress(blocks - {x}, live)
  {
    assert forall b, addr :: LiveAt(blocks - {x}, live, b, addr) ==> LiveAt(blocks, live, b, addr);
  }

  lemma FreeKeeps(hash: seq<seq<Id>>, pages: seq<seq<seq<Id>>>, blocks: map<Id, Block>, live: set<Id>, jetsam: seq<Id>,
                  count: nat, used: nat)
    requires IndexOk(hash, pages, blocks, live) && Consistent(blocks, live, jetsam, count, used) && jetsam != []
    ensures var after := blocks - {jetsam[0]};
            IndexOk(hash, pages, after, live) && Consistent(after, live, jetsam[1..], count, used)
  {
    var x, after := jetsam[0], blocks - {jetsam[0]};
    FreeKeepsJetsam(blocks, live, jetsam);
    FreeKeepsUnique(blocks, live, x);
    FreeKeepsChains(blocks, live, x, 0);
    FreeKeepsChains(blocks, live, x, 1);
    FreeKeepsIndex(hash, pages, blocks, live, x);
    TotalSame(blocks, after, live);
  }

  /** After the range is invalidated no live block starts or ends in it. */
  lemma RangeIsClear(blocks: map<Id, Block>, live: set<Id>, start: nat, end: nat, id: Id)
    requires live <= blocks.Keys && id in OffRange(blocks, live, start, end)
    ensures !(start <= Page(blocks[id].addr) < end) && !(start <= Page(blocks[id].endAddr) < end)
  {
    assert Meets(blocks, id, Page(blocks[id].addr)) && Meets(blocks, id, Page(blocks[id].endAddr));
  }

  /** No exit of a live block leads to a block that was invalidated. */
  lemma LiveExitsLeadToLive(blocks: map<Id, Block>, live: set<Id>, jetsam: seq<Id>, count: nat, used: nat, b: Id, i: nat, c: Id)
    requires Consistent(blocks, live, jetsam, count, used) && b in live && i < 2 && Leads(blocks, b, i, c)
    ensures c in live && c in blocks && c !in jetsam && !blocks[c].isJetsam
  {
    assert ChainsFrom(blocks, live, live, i) by { if i != 0 { assert i == 1; } }
  }

  /** num_blocks is the number of live blocks. */
  lemma NumBlocksCountsLive(blocks: map<Id, Block>, live: set<Id>, jetsam: seq<Id>, count: nat, used: nat)
    requires Consistent(blocks, live, jetsam, count, used)
    ensures count == |live|
  {
    TotalCounts(blocks, live);
  }

  /** Exactly the blocks that stopped being live joined the jetsam list. */
  ghost predicate EvictedOnto(before: seq<Id>, after: seq<Id>, liveBefore: set<Id>, liveAfter: set<Id>) {
    forall id :: id in after <==> id in before || (id in liveBefore && id !in liveAfter)
  }

  /** The blocks no longer live are all from page list i, bucket k. */
  ghost predicate GoneFrom(blocks: map<Id, Block>, liveBefore: set<Id>, live: set<Id>, i: nat, k: nat) {
    live <= liveBefore && forall id :: id in liveBefore && id !in live ==> InBucket(blocks, id, i, k)
  }

  lemma ListOk(hash: seq<seq<Id>>, pages: seq<seq<seq<Id>>>, i: nat, blocks: map<Id, Block>, live: set<Id>)
    requires IndexOk(hash, pages, blocks, live) && i < 2
    ensures PagesOk(pages[i], i, blocks, live)
  {
    if i != 0 { assert i == 1; }
  }

  lemma SameBucket(a: map<Id, Block>, b: map<Id, Block>, id: Id, i: nat, k: nat)
    requires SamePlace(a, b)
    ensures InBucket(a, id, i, k) == InBucket(b, id, i, k)
  {
    if id in a { assert PageBucket(a[id], i) == PageBucket(b[id], i); }
  }

  lemma HeadIsLive(hash: seq<seq<Id>>, pages: seq<seq<seq<Id>>>, i: nat, k: nat, blocks: map<Id, Block>, live: set<Id>)
    requires IndexOk(hash, pages, blocks, live) && i < 2 && k < PAGE_HASH_SIZE
    requires i < |pages| && k < |pages[i]| && pages[i][k] != []
    ensures pages[i][k][0] in live && InBucket(blocks, pages[i][k][0], i, k)
  {
    ListOk(hash, pages, i, blocks, live);
    assert pages[i][k][0] in pages[i][k];
  }

  lemma NoneLeft(hash: seq<seq<Id>>, pages: seq<seq<seq<Id>>>, i: nat, k: nat, before: map<Id, Block>,
                 blocks: map<Id, Block>, liveBefore: set<Id>, live: set<Id>)
    requires IndexOk(hash, pages, blocks, live) && i < 2 && k < PAGE_HASH_SIZE && SamePlace(before, blocks)
    requires i < |pages| && k < |pages[i]| && pages[i][k] == []
    requires GoneFrom(before, liveBefore, live, i, k)
    ensures live == Outside(before, liveBefore, i, k)
  {
    ListOk(hash, pages, i, blocks, live);
    forall id | id in live ensures !InBucket(before, id, i, k) {
      SameBucket(before, blocks, id, i, k);
      assert Paged(pages[i], i, blocks, id);
    }
  }

  lemma GoneOneMore(before: map<Id, Block>, blocks: map<Id, Block>, liveBefore: set<Id>, live: set<Id>, id: Id, i: nat, k: nat)
    requires GoneFrom(before, liveBefore, live, i, k) && SamePlace(before, blocks) && InBucket(blocks, id, i, k)
    ensures GoneFrom(before, liveBefore, live - {id}, i, k)
  {
    SameBucket(before, blocks, id, i, k);
  }

  lemma EvictedOneMore(start: seq<Id>, jetsam: seq<Id>, liveStart: set<Id>, live: set<Id>, id: Id)
    requires EvictedOnto(start, jetsam, liveStart, live) && id in live && live <= liveStart
    ensures EvictedOnto(start, [id] + jetsam, liveStart, live - {id})
  {}

  lemma InsertKeepsIndex(hash: seq<seq<Id>>, pages: seq<seq<seq<Id>>>, blocks: map<Id, Block>, live: set<Id>, id: Id, block: Block)
    requires IndexOk(hash, pages, blocks, live) && id !in blocks
    ensures IndexOk(hash, pages, blocks[id := block], live)
  {
    var after := blocks[id := block];
    forall x | x in live
      ensures Hashed(hash, after, x) && Paged(pages[0], 0, after, x) && Paged(pages[1], 1, after, x)
    {
      assert Hashed(hash, blocks, x) && Paged(pages[0], 0, blocks, x) && Paged(pages[1], 1, blocks, x);
    }
  }

  lemma InsertKeepsChains(blocks: map<Id, Block>, live: set<Id>, i: nat, id: Id, block: Block)
    requires AllShaped(blocks) && id !in blocks && i < 2 && ChainsFrom(blocks, live, live, i)
    requires Shaped(block) && !block.jumpIp[i].Code? && block.jumpsFrom[i] == []
    ensures AllShaped(blocks[id := block]) && ChainsFrom(blocks[id := block], live + {id}, live + {id}, i)
  {
    var after := blocks[id := block];
    assert forall b, c :: b != id && Leads(after, b, i, c) ==> Leads(blocks, b, i, c);
    assert forall b, c :: c != id && Listed(after, c, i, b) ==> Listed(blocks, c, i, b);
    forall b, c | b in live && Leads(blocks, b, i, c) ensures Listed(after, c, i, b) { assert Listed(blocks, c, i, b); }
    forall b, c | c in live && Listed(blocks, c, i, b) ensures Leads(after, b, i, c) { assert Leads(blocks, b, i, c); }
  }

  lemma InsertKeepsCounts(blocks: map<Id, Block>, live: set<Id>, numBlocks: nat, memUsed: nat, id: Id, block: Block)
    requires CountsOk(blocks, live, numBlocks, memUsed) && id !in blocks
    ensures CountsOk(blocks[id := block], live + {id}, numBlocks + 1, memUsed + block.used)
  {
    var after := blocks[id := block];
    TotalAdd(after, live + {id}, id);
    assert live + {id} - {id} == live;
    TotalSame(blocks, after, live);
  }

  lemma InsertKeepsUnique(blocks: map<Id, Block>, live: set<Id>, id: Id, block: Block)
    requires OneBlockPerAddress(blocks, live) && id !in blocks && forall b :: !LiveAt(blocks, live, b, block.addr)
    ensures OneBlockPerAddress(blocks[id := block], live + {id})
  {
    var after, live' := blocks[id := block], live + {id};
    forall a, b, addr | LiveAt(after, live', a, addr) && LiveAt(after, live', b, addr) ensures a == b {
      assert a != id ==> LiveAt(blocks, live, a, addr);
      assert b != id ==> LiveAt(blocks, live, b, addr);
    }
  }

  lemma InsertKeepsJetsam(blocks: map<Id, Block>, live: set<Id>, jetsam: seq<Id>, id: Id, block: Block)
    requires JetsamOk(blocks, live, jetsam) && id !in blocks && !block.isJetsam
    ensures JetsamOk(blocks[id := block], live + {id}, jetsam)
  {
    assert id !in jetsam && id !in live;
  }

  lemma InsertConsistent(blocks: map<Id, Block>, live: set<Id>, jetsam: seq<Id>, numBlocks: nat, memUsed: nat, id: Id, block: Block)
    requires Consistent(blocks, live, jetsam, numBlocks, memUsed)
    requires id !in blocks && Shaped(block) && block.jumpIp == block.oldJumpIp
    requires block.jumpsFrom == [[], []] && !block.isJetsam
    requires forall b :: !LiveAt(blocks, live, b, block.addr)
    ensures Consistent(blocks[id := block], live + {id}, jetsam, numBlocks + 1, memUsed + block.used)
  {
    InsertKeepsChains(blocks, live, 0, id, block);
    InsertKeepsChains(blocks, live, 1, id, block);
    InsertKeepsCounts(blocks, live, numBlocks, memUsed, id, block);
    InsertKeepsUnique(blocks, live, id, block);
    InsertKeepsJetsam(blocks, live, jetsam, id, block);
  }

  // ---------------------------------------------------------------------------------------------
  // Disconnecting a block
  // ---------------------------------------------------------------------------------------------

  /** list_remove_safe on the block's jumps_from_links. */
  function Unlink(blocks: map<Id, Block>, id: Id, i: nat): map<Id, Block>
    requires AllShaped(blocks) && i < 2 && id in blocks
  {
    if blocks[id].jumpIp[i].Code? && blocks[id].jumpIp[i].target in blocks then
      var c := blocks[id].jumpIp[i].target;
      blocks[c := blocks[c].(jumpsFrom := blocks[c].jumpsFrom[i := Remove(blocks[c].jumpsFrom[i], id)])]
    else blocks
  }

  /** Some of the exits that led to `id` hold the guest address again, the rest are as they were. */
  predicate ExitsPartlyRestored(a: map<Id, Block>, b: map<Id, Block>, live: set<Id>, id: Id, i: nat)
    requires AllShaped(a) && AllShaped(b) && i < 2
  {
    a.Keys == b.Keys && forall p :: p in a ==>
      || b[p].jumpIp[i] == a[p].jumpIp[i]
      || (p in live && p != id && a[p].jumpIp[i] == Code(id) && b[p].jumpIp[i] == a[p].oldJumpIp[i])
  }

  lemma UnlinkKeeps(blocks: map<Id, Block>, live: set<Id>, id: Id, i: nat)
    requires AllShaped(blocks) && i < 2 && ChainsFrom(blocks, live, live, i) && id in live
    ensures var after := Unlink(blocks, id, i);
            && AllShaped(after) && OnlyExits(blocks, after, i) && ChainsFrom(after, live - {id}, live, i)
            && ExitsPartlyRestored(blocks, after, live, id, i)
  {
    UnlinkChains(blocks, live, id, i);
  }

  lemma UnlinkChains(blocks: map<Id, Block>, live: set<Id>, id: Id, i: nat)
    requires AllShaped(blocks) && i < 2 && ChainsFrom(blocks, live, live, i) && id in live
    ensures AllShaped(Unlink(blocks, id, i)) && ChainsFrom(Unlink(blocks, id, i), live - {id}, live, i)
  {
    var after := Unlink(blocks, id, i);
    if blocks[id].jumpIp[i].Code? {
      var c := blocks[id].jumpIp[i].target;
      assert Leads(blocks, id, i, c);
      RemoveMembers(blocks[c].jumpsFrom[i], id);
    }
    assert forall b, c :: Leads(after, b, i, c) <==> Leads(blocks, b, i, c);
    forall b, c | b in live && b != id && Leads(after, b, i, c) ensures c in live && Listed(after, c, i, b) {
      assert Listed(blocks, c, i, b);
    }
    forall b, c | c in live && Listed(after, c, i, b) ensures b in live && b != id && Leads(after, b, i, c) {
      assert Listed(blocks, c, i, b);
      assert Leads(blocks, b, i, c);
    }
  }

  function RestoreExit(blocks: map<Id, Block>, p: Id, i: nat): map<Id, Block>
    requires AllShaped(blocks) && i < 2 && p in blocks
  {
    blocks[p := blocks[p].(jumpIp := blocks[p].jumpIp[i := blocks[p].oldJumpIp[i]])]
  }

  function DropHead(blocks: map<Id, Block>, id: Id, i: nat): map<Id, Block>
    requires AllShaped(blocks) && i < 2 && id in blocks && blocks[id].jumpsFrom[i] != []
  {
    blocks[id := blocks[id].(jumpsFrom := blocks[id].jumpsFrom[i := blocks[id].jumpsFrom[i][1..]])]
  }

  /** One step of the walk over the incoming list: its head is restored and taken off. */
  function RestoreHead(blocks: map<Id, Block>, id: Id, i: nat): map<Id, Block>
    requires AllShaped(blocks) && i < 2 && id in blocks && blocks[id].jumpsFrom[i] != []
    requires blocks[id].jumpsFrom[i][0] in blocks
  {
    DropHead(RestoreExit(blocks, blocks[id].jumpsFrom[i][0], i), id, i)
  }

  lemma RestoreKeeps(orig: map<Id, Block>, blocks: map<Id, Block>, live: set<Id>, id: Id, i: nat)
    requires AllShaped(orig) && AllShaped(blocks) && i < 2 && ChainsFrom(blocks, live - {id}, live, i) && id in live
    requires OnlyExits(orig, blocks, i) && ExitsPartlyRestored(orig, blocks, live, id, i)
    requires blocks[id].jumpsFrom[i] != []
    ensures var p := blocks[id].jumpsFrom[i][0]; p in blocks && p != id && blocks[p].jumpIp[i] == Code(id)
    ensures var after := RestoreHead(blocks, id, i);
            && AllShaped(after) && ChainsFrom(after, live - {id}, live, i)
            && OnlyExits(orig, after, i) && ExitsPartlyRestored(orig, after, live, id, i)
            && |after[id].jumpsFrom[i]| < |blocks[id].jumpsFrom[i]|
  {
    var p := blocks[id].jumpsFrom[i][0];
    assert Listed(blocks, id, i, p);
    assert Leads(blocks, p, i, id);
    RestoreChains(blocks, live, id, i);
    RestoreFrame(orig, blocks, live, id, i);
  }

  lemma RestoreFrame(orig: map<Id, Block>, blocks: map<Id, Block>, live: set<Id>, id: Id, i: nat)
    requires AllShaped(orig) && AllShaped(blocks) && i < 2 && id in blocks && blocks[id].jumpsFrom[i] != []
    requires OnlyExits(orig, blocks, i) && ExitsPartlyRestored(orig, blocks, live, id, i)
    requires var p := blocks[id].jumpsFrom[i][0];
             p in live && p in blocks && p != id && blocks[p].jumpIp[i] == Code(id)
    ensures var after := RestoreHead(blocks, id, i);
            AllShaped(after) && OnlyExits(orig, after, i) && ExitsPartlyRestored(orig, after, live, id, i)
  {
    var p := blocks[id].jumpsFrom[i][0];
    RestoreExitFrame(orig, blocks, live, id, p, i);
    DropHeadFrame(orig, RestoreExit(blocks, p, i), live, id, i);
  }

  lemma RestoreExitFrame(orig: map<Id, Block>, blocks: map<Id, Block>, live: set<Id>, id: Id, p: Id, i: nat)
    requires AllShaped(orig) && AllShaped(blocks) && i < 2
    requires OnlyExits(orig, blocks, i) && ExitsPartlyRestored(orig, blocks, live, id, i)
    requires p in live && p in blocks && p != id && blocks[p].jumpIp[i] == Code(id)
    ensures var after := RestoreExit(blocks, p, i);
            AllShaped(after) && OnlyExits(orig, after, i) && ExitsPartlyRestored(orig, after, live, id, i)
  {}

  lemma DropHeadFrame(orig: map<Id, Block>, blocks: map<Id, Block>, live: set<Id>, id: Id, i: nat)
    requires AllShaped(orig) && AllShaped(blocks) && i < 2 && id in blocks && blocks[id].jumpsFrom[i] != []
    requires OnlyExits(orig, blocks, i) && ExitsPartlyRestored(orig, blocks, live, id, i)
    ensures var after := DropHead(blocks, id, i);
            AllShaped(after) && OnlyExits(orig, after, i) && ExitsPartlyRestored(orig, after, live, id, i)
  {}

  lemma {:induction false} RestoreChains(blocks: map<Id, Block>, live: set<Id>, id: Id, i: nat)
    requires AllShaped(blocks) && i < 2 && ChainsFrom(blocks, live - {id}, live, i) && id in live
    requires blocks[id].jumpsFrom[i] != [] && blocks[id].jumpsFrom[i][0] in blocks
    ensures AllShaped(RestoreHead(blocks, id, i)) && ChainsFrom(RestoreHead(blocks, id, i), live - {id}, live, i)
  {
    var p := blocks[id].jumpsFrom[i][0];
    assert Listed(blocks, id, i, p);
    var after := RestoreHead(blocks, id, i);
    var l := blocks[id].jumpsFrom[i];
    assert l == [p] + l[1..];
    assert p !in l[1..];
    forall b, c | b in live && b != id && Leads(after, b, i, c) ensures c in live && Listed(after, c, i, b) {
      assert b != p && Leads(blocks, b, i, c);
      assert Listed(blocks, c, i, b);
    }
    forall b, c | c in live && Listed(after, c, i, b) ensures b in live && b != id && Leads(after, b, i, c) {
      assert Listed(blocks, c, i, b);
      assert Leads(blocks, b, i, c);
    }
  }

  lemma AllRestored(before: map<Id, Block>, after: map<Id, Block>, live: set<Id>, id: Id, i: nat)
    requires AllShaped(before) && AllShaped(after) && i < 2 && id in live
    requires ChainsFrom(after, live - {id}, live, i) && after[id].jumpsFrom[i] == []
    requires ExitsPartlyRestored(before, after, live, id, i)
    ensures ChainsFrom(after, live - {id}, live - {id}, i) && ExitsRestored(before, after, live, id, i)
  {
    forall b, c | b in live && b != id && Leads(after, b, i, c) ensures c != id { assert Listed(after, c, i, b); }
    forall p | p in before && p in live && p != id && before[p].jumpIp[i] == Code(id)
      ensures after[p].jumpIp[i] == before[p].oldJumpIp[i]
    {
      assert !Leads(after, p, i, id);
    }
  }

  lemma OtherIndexKeeps(a: map<Id, Block>, b: map<Id, Block>, sources: set<Id>, live: set<Id>, i: nat)
    requires AllShaped(a) && AllShaped(b) && i < 2 && OnlyExits(a, b, 1 - i) && ChainsFrom(a, sources, live, i)
    ensures ChainsFrom(b, sources, live, i)
  {
    assert forall p, c :: Leads(a, p, i, c) <==> Leads(b, p, i, c);
    assert forall p, c :: Listed(a, c, i, p) <==> Listed(b, c, i, p);
  }

  /** `id` is off every list of jumps, exits that led to it hold the guest address, nothing else changed. */
  ghost predicate Disconnected(a: map<Id, Block>, b: map<Id, Block>, live: set<Id>, id: Id) {
    && AllShaped(a) && AllShaped(b) && SamePlace(a, b)
    && (forall p {:trigger a[p]} :: p in a ==> a[p].oldJumpIp == b[p].oldJumpIp && a[p].isJetsam == b[p].isJetsam)
    && ChainsFrom(b, live - {id}, live - {id}, 0) && ChainsFrom(b, live - {id}, live - {id}, 1)
    && ExitsRestored(a, b, live, id, 0) && ExitsRestored(a, b, live, id, 1)
  }

  lemma BothDisconnected(a: map<Id, Block>, b: map<Id, Block>, c: map<Id, Block>, live: set<Id>, id: Id)
    requires AllShaped(a) && AllShaped(b) && AllShaped(c) && OnlyExits(a, b, 0) && OnlyExits(b, c, 1)
    requires ExitsRestored(a, b, live, id, 0) && ExitsRestored(b, c, live, id, 1)
    requires ChainsFrom(c, live - {id}, live - {id}, 0) && ChainsFrom(c, live - {id}, live - {id}, 1)
    ensures Disconnected(a, c, live, id)
  {}

  lemma SameIndex(hash: seq<seq<Id>>, pages: seq<seq<seq<Id>>>, a: map<Id, Block>, b: map<Id, Block>, live: set<Id>)
    requires SamePlace(a, b) && IndexOk(hash, pages, a, live)
    ensures IndexOk(hash, pages, b, live)
  {
    SameHash(hash, a, b, live);
    SamePages(pages[0], 0, a, b, live);
    SamePages(pages[1], 1, a, b, live);
  }

  lemma MarkKeepsChains(blocks: map<Id, Block>, live: set<Id>, id: Id, i: nat)
    requires AllShaped(blocks) && id in blocks && i < 2 && ChainsFrom(blocks, live, live, i)
    ensures AllShaped(Marked(blocks, id))
    ensures ChainsFrom(Marked(blocks, id), live, live, i)
  {
    var after := Marked(blocks, id);
    assert forall p, c :: Leads(after, p, i, c) <==> Leads(blocks, p, i, c);
    assert forall p, c :: Listed(after, c, i, p) <==> Listed(blocks, c, i, p);
  }

  lemma EvictKeepsJetsam(was: map<Id, Block>, mid: map<Id, Block>, live: set<Id>, jetsam: seq<Id>, id: Id)
    requires JetsamOk(was, live, jetsam) && SamePlace(was, mid) && id in live
    requires forall p :: p in was ==> was[p].isJetsam == mid[p].isJetsam
    ensures id in mid && JetsamOk(Marked(mid, id), live - {id}, [id] + jetsam)
  {
    assert id !in jetsam;
    AddMembers(jetsam, id);
  }

  lemma {:induction false} EvictConsistent(was: map<Id, Block>, mid: map<Id, Block>, live: set<Id>, jetsam: seq<Id>, id: Id, count: nat, used: nat)
    requires AllShaped(was) && OneBlockPerAddress(was, live) && JetsamOk(was, live, jetsam)
    requires id in live && live <= was.Keys && Disconnected(was, mid, live, id)
    requires Total(was, live - {id}) == Totals(count, used)
    ensures Consistent(Marked(mid, id), live - {id}, [id] + jetsam, count, used)
  {
    var after, live' := Marked(mid, id), live - {id};
    MarkKeepsChains(mid, live', id, 0);
    MarkKeepsChains(mid, live', id, 1);
    EvictKeepsJetsam(was, mid, live, jetsam, id);
    TotalSame(was, after, live');
    assert forall b, addr :: LiveAt(after, live', b, addr) ==> LiveAt(was, live, b, addr);
  }
}
