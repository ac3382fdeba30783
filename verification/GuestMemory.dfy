/**
 Guest memory through a page table: what mem_ptr (kernel/memory.c) promises its callers, and loads and
 stores one byte at a time on top of it. The accessors of the software TLB are proved against this.
 */
module GuestMemory {

  type Byte = b: nat | b < 256

  const PAGE_SIZE: nat := 4096

  datatype Option<+T> = None | Some(value: T)

  datatype Access = Read | Store

  /** `host` is where the page starts in host memory; the flags are P_WRITE, P_COW and P_CODE. */
  datatype Pte = Pte(host: nat, write: bool, cow: bool, code: bool)

  datatype Memory = Memory(table: map<nat, Pte>, bytes: seq<Byte>, changes: nat)

  function Page(addr: nat): nat { addr / PAGE_SIZE }

  function Offset(addr: nat): (r: nat)
    ensures r < PAGE_SIZE
  {
    addr % PAGE_SIZE
  }

  predicate Ok(m: Memory) {
    forall p :: p in m.table ==> m.table[p].host + PAGE_SIZE <= |m.bytes|
  }

  /** Host memory comes in pages, and a guest page is backed by one of them. */
  ghost predicate Paged(m: Memory) {
    WholePages(|m.bytes|) && forall p :: p in m.table ==> WholePages(m.table[p].host)
  }

  predicate WholePages(n: nat) {
    n == 0 || (n >= PAGE_SIZE && WholePages(n - PAGE_SIZE))
  }

  lemma {:induction false} SameOrApart(a: nat, b: nat)
    requires WholePages(a) && WholePages(b)
    ensures a == b || a + PAGE_SIZE <= b || b + PAGE_SIZE <= a
    decreases a + b
  {
    if a > 0 && b > 0 { SameOrApart(a - PAGE_SIZE, b - PAGE_SIZE); }
  }

  /** Making a page ready keeps it so. */
  lemma TranslateKeepsPages(m: Memory, page: nat, access: Access)
    requires Ok(m) && Paged(m)
    ensures Paged(Translate(m, page, access))
  {}

  /** The store of a page that needs nothing done first. */
  predicate Direct(m: Memory, page: nat) {
    page in m.table && m.table[page].write && !m.table[page].cow && !m.table[page].code
  }

  predicate Permitted(m: Memory, page: nat, access: Access) {
    page in m.table && (access == Store ==> m.table[page].write)
  }

  function ClearCode(m: Memory, page: nat): Memory
    requires page in m.table
  {
    if m.table[page].code then
      m.(table := m.table[page := m.table[page].(code := false)], changes := m.changes + 1)
    else m
  }

  /** The page gets a copy of its own at the end of host memory. */
  function BreakCow(m: Memory, page: nat): Memory
    requires page in m.table && m.table[page].host + PAGE_SIZE <= |m.bytes|
  {
    var pte := m.table[page];
    if pte.cow then
      Memory(m.table[page := pte.(host := |m.bytes|, cow := false)],
             m.bytes + m.bytes[pte.host..pte.host + PAGE_SIZE], m.changes + 1)
    else m
  }

  /** mem_ptr, as mmu_translate: a store takes compiled code and copy-on-write out of the way. */
  function Translate(m: Memory, page: nat, access: Access): Memory
    requires Ok(m)
  {
    if access == Store && Permitted(m, page, Store) then BreakCow(ClearCode(m, page), page) else m
  }

  /** The host address of a guest address, if the access is permitted. */
  function Pointer(m: Memory, addr: nat, access: Access): Option<nat> {
    if Permitted(m, Page(addr), access) then Some(m.table[Page(addr)].host + Offset(addr)) else None
  }

  function ByteAt(m: Memory, addr: nat): Option<Byte>
    requires Ok(m)
  {
    if Page(addr) in m.table then Some(m.bytes[m.table[Page(addr)].host + Offset(addr)]) else None
  }

  /** What a caller relies on: the page takes direct stores afterwards, no guest byte and no permission
      changed, and a second translation does nothing. */
  lemma TranslateMeaning(m: Memory, page: nat, access: Access)
    requires Ok(m)
    ensures var after := Translate(m, page, access);
            && Ok(after) && after.changes >= m.changes && after.table.Keys == m.table.Keys
            && (forall a :: ByteAt(after, a) == ByteAt(m, a))
            && (forall p, x :: Permitted(after, p, x) == Permitted(m, p, x))
            && (access == Store && Permitted(m, page, Store) ==> Direct(after, page))
            && Translate(after, page, access) == after
            && (after != m ==> after.changes > m.changes)
  {
    if access == Store && Permitted(m, page, Store) {
      var cleared := ClearCode(m, page);
      assert Ok(cleared) && forall a :: ByteAt(cleared, a) == ByteAt(m, a);
      CowKeepsBytes(cleared, page);
    }
  }

  lemma CowKeepsBytes(m: Memory, page: nat)
    requires Ok(m) && page in m.table
    ensures Ok(BreakCow(m, page)) && forall a :: ByteAt(BreakCow(m, page), a) == ByteAt(m, a)
  {
    var after := BreakCow(m, page);
    forall a ensures ByteAt(after, a) == ByteAt(m, a) {
      if Page(a) == page && m.table[page].cow {
        assert after.bytes[|m.bytes| + Offset(a)] == m.bytes[m.table[page].host..m.table[page].host + PAGE_SIZE][Offset(a)];
      }
    }
  }

  // ---------------------------------------------------------------------------------------------
  // One byte at a time
  // ---------------------------------------------------------------------------------------------

  /** The n bytes from `addr` up; None when one of them is not mapped. */
  function LoadBytes(m: Memory, addr: nat, n: nat): Option<seq<Byte>>
    requires Ok(m)
    decreases n
  {
    if n == 0 then Some([]) else
      var rest := LoadBytes(m, addr + 1, n - 1);
      if ByteAt(m, addr) == None || rest == None then None else Some([ByteAt(m, addr).value] + rest.value)
  }

  function PutByte(m: Memory, addr: nat, b: Byte): (r: Memory)
    requires Ok(m) && Page(addr) in m.table
    ensures Ok(r) && r.table == m.table && |r.bytes| == |m.bytes|
  {
    m.(bytes := m.bytes[m.table[Page(addr)].host + Offset(addr) := b])
  }

  /** The access is permitted for each of the n bytes from `addr` up. */
  ghost predicate Reach(m: Memory, addr: nat, n: nat, access: Access) {
    forall a: nat :: addr <= a < addr + n ==> Permitted(m, Page(a), access)
  }

  /** Stores through the table as it is. */
  function PutBytes(m: Memory, addr: nat, value: seq<Byte>): (r: Memory)
    requires Ok(m) && Reach(m, addr, |value|, Read)
    ensures Ok(r) && r.table == m.table && |r.bytes| == |m.bytes|
    decreases |value|
  {
    if value == [] then m else
      PutBytes(PutByte(m, addr, value[0]), addr + 1, value[1..])
  }

  /** What a sequence of single-byte stores does: it stops at the first byte that faults and reports how
      many bytes were stored. */
  function StoreBytes(m: Memory, addr: nat, value: seq<Byte>): (r: (Memory, nat))
    requires Ok(m)
    ensures Ok(r.0) && r.1 <= |value|
    decreases |value|
  {
    if value == [] || !Permitted(m, Page(addr), Store) then (m, 0) else
      var rest := StoreBytes(StoreFirst(m, addr, value[0]), addr + 1, value[1..]);
      (rest.0, rest.1 + 1)
  }

  // ---------------------------------------------------------------------------------------------
  // Block copies
  // ---------------------------------------------------------------------------------------------

  /** memcpy to host memory. */
  function CopyTo(bytes: seq<Byte>, at: nat, value: seq<Byte>): (r: seq<Byte>)
    requires at + |value| <= |bytes|
    ensures |r| == |bytes|
  {
    bytes[..at] + value + bytes[at + |value|..]
  }

  lemma SamePage(addr: nat, i: nat)
    requires Offset(addr) + i < PAGE_SIZE
    ensures Page(addr + i) == Page(addr) && Offset(addr + i) == Offset(addr) + i
  {}

  lemma NextPage(addr: nat, i: nat)
    requires Offset(addr) + i == PAGE_SIZE
    ensures addr + i == (Page(addr) + 1) * PAGE_SIZE && Page(addr + i) == Page(addr) + 1 && Offset(addr + i) == 0
  {}

  lemma {:induction false} LoadInPage(m: Memory, addr: nat, n: nat)
    requires Ok(m) && Offset(addr) + n <= PAGE_SIZE && n > 0
    ensures LoadBytes(m, addr, n) ==
            if Page(addr) in m.table then var p := m.table[Page(addr)].host + Offset(addr); Some(m.bytes[p..p + n]) else None
    decreases n
  {
    if Page(addr) in m.table {
      var p := m.table[Page(addr)].host + Offset(addr);
      assert m.bytes[p..p + n] == [m.bytes[p]] + m.bytes[p + 1..p + n];
    }
    if n > 1 {
      SamePage(addr, 1);
      LoadInPage(m, addr + 1, n - 1);
    } else {
      assert LoadBytes(m, addr + 1, 0) == Some([]);
    }
  }

  lemma {:induction false} LoadSplit(m: Memory, addr: nat, a: nat, b: nat)
    requires Ok(m)
    ensures LoadBytes(m, addr, a + b) ==
            if LoadBytes(m, addr, a) == None || LoadBytes(m, addr + a, b) == None then None
            else Some(LoadBytes(m, addr, a).value + LoadBytes(m, addr + a, b).value)
    decreases a
  {
    if a > 0 {
      LoadSplit(m, addr + 1, a - 1, b);
      assert addr + 1 + (a - 1) == addr + a && (a - 1) + b == (a + b) - 1;
      var first, rest, more := ByteAt(m, addr), LoadBytes(m, addr + 1, a - 1), LoadBytes(m, addr + a, b);
      if first.Some? && rest.Some? && more.Some? {
        assert [first.value] + (rest.value + more.value) == [first.value] + rest.value + more.value;
      }
    } else if LoadBytes(m, addr, b).Some? {
      assert [] + LoadBytes(m, addr, b).value == LoadBytes(m, addr, b).value;
    }
  }

  lemma CopyOneMore(bytes: seq<Byte>, p: nat, value: seq<Byte>)
    requires p + |value| <= |bytes| && value != []
    ensures CopyTo(bytes[p := value[0]], p + 1, value[1..]) == CopyTo(bytes, p, value)
  {
    var one := bytes[p := value[0]];
    assert one[..p + 1] == bytes[..p] + [value[0]];
    assert one[p + |value|..] == bytes[p + |value|..];
    assert [value[0]] + value[1..] == value;
  }

  lemma {:induction false} PutInPage(m: Memory, addr: nat, value: seq<Byte>)
    requires Ok(m) && Offset(addr) + |value| <= PAGE_SIZE && Page(addr) in m.table
    ensures Reach(m, addr, |value|, Read)
    ensures PutBytes(m, addr, value) == m.(bytes := CopyTo(m.bytes, m.table[Page(addr)].host + Offset(addr), value))
    decreases |value|
  {
    var p := m.table[Page(addr)].host + Offset(addr);
    forall a: nat | addr <= a < addr + |value| ensures Permitted(m, Page(a), Read) { SamePage(addr, a - addr); }
    if value == [] {
      assert m.bytes[..p] + value + m.bytes[p..] == m.bytes;
    } else {
      CopyOneMore(m.bytes, p, value);
      if |value| > 1 {
        SamePage(addr, 1);
        PutInPage(PutByte(m, addr, value[0]), addr + 1, value[1..]);
      } else {
        assert CopyTo(m.bytes[p := value[0]], p + 1, []) == m.bytes[p := value[0]];
      }
    }
  }

  lemma {:induction false} PutSplit(m: Memory, addr: nat, v: seq<Byte>, w: seq<Byte>)
    requires Ok(m) && Reach(m, addr, |v| + |w|, Read)
    ensures PutBytes(m, addr, v + w) == PutBytes(PutBytes(m, addr, v), addr + |v|, w)
    decreases |v|
  {
    if v == [] {
      assert v + w == w;
    } else {
      assert (v + w)[1..] == v[1..] + w;
      PutSplit(PutByte(m, addr, v[0]), addr + 1, v[1..], w);
    }
  }

  lemma DirectTranslate(m: Memory, page: nat)
    requires Ok(m) && Direct(m, page)
    ensures Translate(m, page, Store) == m
  {}

  lemma {:induction false} StoreDirect(m: Memory, addr: nat, value: seq<Byte>)
    requires Ok(m) && Offset(addr) + |value| <= PAGE_SIZE && Direct(m, Page(addr))
    ensures Reach(m, addr, |value|, Read) && StoreBytes(m, addr, value) == (PutBytes(m, addr, value), |value|)
    decreases |value|
  {
    PutInPage(m, addr, value);
    if value != [] {
      DirectTranslate(m, Page(addr));
      if |value| > 1 {
        SamePage(addr, 1);
        StoreDirect(PutByte(m, addr, value[0]), addr + 1, value[1..]);
      }
    }
  }

  /** Within a page: one translation, one copy. */
  lemma StoreInPage(m: Memory, addr: nat, value: seq<Byte>)
    requires Ok(m) && Offset(addr) + |value| <= PAGE_SIZE && value != []
    ensures !Permitted(m, Page(addr), Store) ==> StoreBytes(m, addr, value) == (m, 0)
    ensures Permitted(m, Page(addr), Store) ==>
              var after := Translate(m, Page(addr), Store);
              Ok(after) && Reach(after, addr, |value|, Read)
              && StoreBytes(m, addr, value) == (PutBytes(after, addr, value), |value|)
  {
    if Permitted(m, Page(addr), Store) {
      TranslateMeaning(m, Page(addr), Store);
      var after := Translate(m, Page(addr), Store);
      StoreDirect(after, addr, value);
    }
  }

  /** The memory after the first of a sequence of single-byte stores. */
  function StoreFirst(m: Memory, addr: nat, b: Byte): (r: Memory)
    requires Ok(m) && Permitted(m, Page(addr), Store)
    ensures Ok(r)
  {
    TranslateMeaning(m, Page(addr), Store);
    PutByte(Translate(m, Page(addr), Store), addr, b)
  }

  lemma {:induction false} StoreUnfold(m: Memory, addr: nat, value: seq<Byte>)
    requires Ok(m) && value != [] && Permitted(m, Page(addr), Store)
    ensures var rest := StoreBytes(StoreFirst(m, addr, value[0]), addr + 1, value[1..]);
            StoreBytes(m, addr, value) == (rest.0, rest.1 + 1)
  {}

  /** The stores of `v` and then, if they all went through, those of `w`. */
  function StoreBoth(m: Memory, addr: nat, v: seq<Byte>, w: seq<Byte>): (Memory, nat)
    requires Ok(m)
  {
    var first := StoreBytes(m, addr, v);
    if first.1 < |v| then first else StoreMore(first.0, addr + |v|, w, |v|)
  }

  /** Stores after n that went through. */
  function StoreMore(m: Memory, addr: nat, w: seq<Byte>, n: nat): (Memory, nat)
    requires Ok(m)
  {
    var second := StoreBytes(m, addr, w);
    (second.0, n + second.1)
  }

  lemma {:induction false} StoreSplit(m: Memory, addr: nat, v: seq<Byte>, w: seq<Byte>)
    requires Ok(m)
    ensures StoreBytes(m, addr, v + w) == StoreBoth(m, addr, v, w)
    decreases |v|
  {
    if v == [] {
      assert v + w == w;
    } else if Permitted(m, Page(addr), Store) {
      HeadAndRest(v, w);
      StoreSplit(StoreFirst(m, addr, v[0]), addr + 1, v[1..], w);
      StoreUnfold(m, addr, v + w);
      StoreBothUnfold(m, addr, v, w);
    }
  }

  lemma HeadAndRest(v: seq<Byte>, w: seq<Byte>)
    requires v != []
    ensures v + w != [] && (v + w)[1..] == v[1..] + w && (v + w)[0] == v[0]
  {}

  lemma {:induction false} StoreBothUnfold(m: Memory, addr: nat, v: seq<Byte>, w: seq<Byte>)
    requires Ok(m) && v != [] && Permitted(m, Page(addr), Store)
    ensures var rest := StoreBoth(StoreFirst(m, addr, v[0]), addr + 1, v[1..], w);
            StoreBoth(m, addr, v, w) == (rest.0, rest.1 + 1)
  {
    StoreUnfold(m, addr, v);
    assert addr + 1 + |v[1..]| == addr + |v|;
  }

  /** Byte stores go on exactly up to the first address that does not take them. */
  lemma {:induction false} StoresStopAtTheFault(m: Memory, addr: nat, value: seq<Byte>)
    requires Ok(m)
    ensures var n := StoreBytes(m, addr, value).1;
            Reach(m, addr, n, Store) && (n < |value| ==> !Permitted(m, Page(addr + n), Store))
    decreases |value|
  {
    if value != [] && Permitted(m, Page(addr), Store) {
      TranslateMeaning(m, Page(addr), Store);
      var next := StoreFirst(m, addr, value[0]);
      StoresStopAtTheFault(next, addr + 1, value[1..]);
      var n := StoreBytes(next, addr + 1, value[1..]).1;
      assert forall p, x :: Permitted(next, p, x) == Permitted(m, p, x);
      forall a: nat | addr <= a < addr + (n + 1) ensures Permitted(m, Page(a), Store) {
        if a > addr { assert addr + 1 <= a < addr + 1 + n; assert Permitted(next, Page(a), Store); }
      }
      assert addr + 1 + n == addr + (n + 1);
    }
  }

  /** The host pages of two guest pages do not overlap. */
  predicate Apart(m: Memory, p: nat, q: nat) {
    p in m.table && q in m.table ==>
      m.table[p].host + PAGE_SIZE <= m.table[q].host || m.table[q].host + PAGE_SIZE <= m.table[p].host
  }

  lemma CopyLeavesRest(bytes: seq<Byte>, p: nat, value: seq<Byte>, h: nat)
    requires p + |value| <= |bytes| && h + PAGE_SIZE <= |bytes| && (h + PAGE_SIZE <= p || p + |value| <= h)
    ensures CopyTo(bytes, p, value)[h..h + PAGE_SIZE] == bytes[h..h + PAGE_SIZE]
  {}

  lemma CopyThenAppend(bytes: seq<Byte>, p: nat, value: seq<Byte>, more: seq<Byte>)
    requires p + |value| <= |bytes|
    ensures CopyTo(bytes + more, p, value) == CopyTo(bytes, p, value) + more
  {
    assert (bytes + more)[..p] == bytes[..p];
    assert (bytes + more)[p + |value|..] == bytes[p + |value|..] + more;
  }

  /** Copying a page out commutes with a store to another one. */
  lemma {:induction false} CowAfterPut(m: Memory, addr: nat, value: seq<Byte>, q: nat)
    requires Ok(m) && Offset(addr) + |value| <= PAGE_SIZE && Page(addr) in m.table && q in m.table
    requires Page(addr) != q && m.table[q].cow && Apart(m, Page(addr), q)
    ensures Reach(m, addr, |value|, Read) && Ok(BreakCow(m, q)) && Reach(BreakCow(m, q), addr, |value|, Read)
    ensures BreakCow(PutBytes(m, addr, value), q) == PutBytes(BreakCow(m, q), addr, value)
  {
    PutInPage(m, addr, value);
    CowKeepsBytes(m, q);
    PutInPage(BreakCow(m, q), addr, value);
    CowAfterCopy(m, m.table[Page(addr)].host + Offset(addr), value, q);
  }

  /** The same on the bytes. */
  lemma {:induction false} CowAfterCopy(m: Memory, p: nat, value: seq<Byte>, q: nat)
    requires q in m.table && m.table[q].cow && m.table[q].host + PAGE_SIZE <= |m.bytes| && p + |value| <= |m.bytes|
    requires m.table[q].host + PAGE_SIZE <= p || p + |value| <= m.table[q].host
    ensures var after := BreakCow(m, q);
            p + |value| <= |after.bytes| && BreakCow(m.(bytes := CopyTo(m.bytes, p, value)), q) == after.(bytes := CopyTo(after.bytes, p, value))
  {
    CopyLeavesRest(m.bytes, p, value, m.table[q].host);
    CopyThenAppend(m.bytes, p, value, m.bytes[m.table[q].host..m.table[q].host + PAGE_SIZE]);
  }

  lemma {:induction false} TranslateAfterPut(m: Memory, addr: nat, value: seq<Byte>, q: nat)
    requires Ok(m) && Offset(addr) + |value| <= PAGE_SIZE && Page(addr) in m.table && Page(addr) != q
    requires q in m.table && m.table[q].cow ==> Apart(m, Page(addr), q)
    ensures Reach(m, addr, |value|, Read) && Ok(Translate(m, q, Store)) && Reach(Translate(m, q, Store), addr, |value|, Read)
    ensures Translate(PutBytes(m, addr, value), q, Store) == PutBytes(Translate(m, q, Store), addr, value)
  {
    PutInPage(m, addr, value);
    TranslateMeaning(m, q, Store);
    PutInPage(Translate(m, q, Store), addr, value);
    if Permitted(m, q, Store) {
      ClearAfterPut(m, addr, value, q);
      if m.table[q].cow { CowAfterPut(ClearCode(m, q), addr, value, q); }
    }
  }

  lemma {:induction false} ClearAfterPut(m: Memory, addr: nat, value: seq<Byte>, q: nat)
    requires Ok(m) && Offset(addr) + |value| <= PAGE_SIZE && Page(addr) in m.table && q in m.table
    ensures Reach(m, addr, |value|, Read) && Ok(ClearCode(m, q)) && Reach(ClearCode(m, q), addr, |value|, Read)
    ensures ClearCode(PutBytes(m, addr, value), q) == PutBytes(ClearCode(m, q), addr, value)
  {
    PutInPage(m, addr, value);
    PutInPage(ClearCode(m, q), addr, value);
  }
}
