/**
 The software TLB (emu/tlb.c, emu/tlb.h) as one thread uses it between changes made by others: lookups,
 the miss handler, and the loads and stores on top of them.
 */
module Tlb {
  import opened GuestMemory
  import TlbCoherence

  const TLB_SIZE: nat := 8192
  const TLB_PAGE_EMPTY: nat := 1
  const UNSIGNED: nat := 0x1_0000_0000

  /** TLB_PAGE */
  function PageAddr(addr: nat): nat { Page(addr) * PAGE_SIZE }

  /** TLB_INDEX */
  function Index(addr: nat): (i: nat)
    ensures i < TLB_SIZE
  {
    TlbCoherence.Index(Page(addr))
  }

  /** struct tlb_entry; the tags are page addresses, or TLB_PAGE_EMPTY, which no page address equals. */
  datatype Entry = Entry(page: nat, pageIfWritable: nat, dataMinusAddr: int, gen: nat)

  const EMPTY := Entry(TLB_PAGE_EMPTY, TLB_PAGE_EMPTY, 0, 0)

  /** A host address computed from the entry is the one the page table gives. */
  predicate Points(m: Memory, e: Entry, tag: nat) {
    tag % PAGE_SIZE == 0 && Page(tag) in m.table && e.dataMinusAddr + tag == m.table[Page(tag)].host
  }

  predicate EntryOk(m: Memory, e: Entry) {
    && e.gen <= m.changes
    && (e.gen == m.changes && e.page != TLB_PAGE_EMPTY ==> Points(m, e, e.page))
    && (e.gen == m.changes && e.pageIfWritable != TLB_PAGE_EMPTY
        ==> Points(m, e, e.pageIfWritable) && Direct(m, Page(e.pageIfWritable)))
  }

  ghost predicate Coherent(m: Memory, entries: seq<Entry>) {
    Ok(m) && |entries| == TLB_SIZE && forall i :: 0 <= i < TLB_SIZE ==> EntryOk(m, entries[i])
  }

  /** Whatever another thread does to the table, once it has bumped `changes` no entry is a lie. */
  lemma ChangeKeepsCoherence(before: Memory, after: Memory, entries: seq<Entry>)
    requires Coherent(before, entries) && Ok(after) && after.changes > before.changes
    ensures Coherent(after, entries)
  {
    forall i | 0 <= i < TLB_SIZE ensures EntryOk(after, entries[i]) { assert EntryOk(before, entries[i]); }
  }

  lemma StampKeepsCoherence(m: Memory, entries: seq<Entry>, i: nat, e: Entry)
    requires Coherent(m, entries) && i < TLB_SIZE && EntryOk(m, e)
    ensures Coherent(m, entries[i := e])
  {
    var after := entries[i := e];
    forall j | 0 <= j < TLB_SIZE ensures EntryOk(m, after[j]) { assert EntryOk(m, entries[j]); }
  }

  lemma TranslateKeepsCoherence(m: Memory, entries: seq<Entry>, page: nat, access: Access)
    requires Coherent(m, entries)
    ensures Coherent(Translate(m, page, access), entries)
  {
    TranslateMeaning(m, page, access);
    if Translate(m, page, access) != m { ChangeKeepsCoherence(m, Translate(m, page, access), entries); }
  }

  lemma CopyKeepsCoherence(m: Memory, entries: seq<Entry>, bytes: seq<Byte>)
    requires Coherent(m, entries) && |bytes| == |m.bytes|
    ensures Coherent(m.(bytes := bytes), entries)
  {
    forall i | 0 <= i < TLB_SIZE ensures EntryOk(m.(bytes := bytes), entries[i]) { assert EntryOk(m, entries[i]); }
  }

  lemma PageParts(addr: nat)
    ensures PageAddr(addr) + Offset(addr) == addr && PageAddr(addr) % PAGE_SIZE == 0 && Page(PageAddr(addr)) == Page(addr)
    ensures PageAddr(addr) != TLB_PAGE_EMPTY
  {}

  /** A load that runs over the end of the page. */
  lemma LoadAcross(m: Memory, addr: nat, part: nat, rest: nat)
    requires Ok(m) && Offset(addr) + part == PAGE_SIZE && 0 < rest <= PAGE_SIZE
    ensures var next := (Page(addr) + 1) * PAGE_SIZE; Page(next) == Page(addr) + 1 && Offset(next) == 0
    ensures var next := (Page(addr) + 1) * PAGE_SIZE;
            LoadBytes(m, addr, part + rest) ==
            if Page(addr) !in m.table || Page(next) !in m.table then None
            else var p, q := m.table[Page(addr)].host + Offset(addr), m.table[Page(next)].host;
                 Some(m.bytes[p..p + part] + m.bytes[q..q + rest])
  {
    NextPage(addr, part);
    LoadSplit(m, addr, part, rest);
    LoadInPage(m, addr, part);
    LoadInPage(m, addr + part, rest);
  }

  /** Memory with the first and the last page of a range made ready for stores. */
  function Ready(m: Memory, addr: nat, n: nat): Memory
    requires Ok(m) && n > 0
  {
    TranslateMeaning(m, Page(addr), Store);
    Translate(Translate(m, Page(addr), Store), Page(addr + n - 1), Store)
  }

  /** Once made ready, the range can be written through the table. */
  ghost predicate Writable(m: Memory, addr: nat, n: nat)
    requires Ok(m)
  {
    n > 0 && Ok(Ready(m, addr, n)) && Reach(Ready(m, addr, n), addr, n, Read)
  }

  lemma {:induction false} WriteInPage(m: Memory, addr: nat, value: seq<Byte>)
    requires Ok(m) && value != [] && Offset(addr) + |value| <= PAGE_SIZE
    ensures Reach(m, addr, |value|, Store) == Permitted(m, Page(addr), Store)
    ensures Permitted(m, Page(addr), Store) ==>
              var after := Translate(m, Page(addr), Store);
              Ok(after) && Page(addr) in after.table && Writable(m, addr, |value|)
              && after.table[Page(addr)].host + PAGE_SIZE <= |after.bytes|
              && PutBytes(Ready(m, addr, |value|), addr, value)
                 == after.(bytes := CopyTo(after.bytes, after.table[Page(addr)].host + Offset(addr), value))
  {
    var after := Translate(m, Page(addr), Store);
    TranslateMeaning(m, Page(addr), Store);
    SamePage(addr, |value| - 1);
    forall a: nat | addr <= a < addr + |value| ensures Page(a) == Page(addr) { SamePage(addr, a - addr); }
    assert Reach(m, addr, |value|, Store) ==> Permitted(m, Page(addr), Store);
    if Permitted(m, Page(addr), Store) {
      assert Ready(m, addr, |value|) == after;
      PutInPage(after, addr, value);
    }
  }

  /** Making the second page ready leaves the host address of the first alone. */
  lemma OtherPageKeeps(m: Memory, page: nat, other: nat)
    requires Ok(m) && page in m.table && page != other
    ensures var after := Translate(m, other, Store);
            Ok(after) && page in after.table && after.table[page] == m.table[page] && |m.bytes| <= |after.bytes|
  {
    TranslateMeaning(m, other, Store);
  }

  lemma {:induction false} AcrossReach(m: Memory, addr: nat, n: nat)
    requires n <= PAGE_SIZE < Offset(addr) + n
    ensures Page(addr + n - 1) == Page(addr) + 1
    ensures forall x :: Reach(m, addr, n, x) <==> Permitted(m, Page(addr), x) && Permitted(m, Page(addr) + 1, x)
  {
    var part := PAGE_SIZE - Offset(addr);
    NextPage(addr, part);
    SamePage(addr + part, n - part - 1);
    forall a: nat | addr <= a < addr + n ensures Page(a) == if a < addr + part then Page(addr) else Page(addr) + 1 {
      if a < addr + part { SamePage(addr, a - addr); } else { SamePage(addr + part, a - addr - part); }
    }
    assert Page(addr + part) == Page(addr) + 1;
    forall x ensures Reach(m, addr, n, x) <==> Permitted(m, Page(addr), x) && Permitted(m, Page(addr) + 1, x) {
      if Reach(m, addr, n, x) {
        assert Permitted(m, Page(addr), x);
        assert Permitted(m, Page(addr + part), x);
      }
    }
  }

  /** Two copies, one for each page, are the byte stores of the whole. */
  lemma {:induction false} PutAcross(m: Memory, addr: nat, value: seq<Byte>)
    requires Ok(m) && |value| <= PAGE_SIZE < Offset(addr) + |value|
    requires Page(addr) in m.table && Page(addr) + 1 in m.table
    ensures Reach(m, addr, |value|, Read)
    ensures var part := PAGE_SIZE - Offset(addr);
            var p, q := m.table[Page(addr)].host + Offset(addr), m.table[Page(addr) + 1].host;
            p + part <= |m.bytes| && q + PAGE_SIZE <= |m.bytes|
            && PutBytes(m, addr, value) == m.(bytes := CopyTo(CopyTo(m.bytes, p, value[..part]), q, value[part..]))
  {
    var part := PAGE_SIZE - Offset(addr);
    var v, w := value[..part], value[part..];
    AcrossReach(m, addr, |value|);
    NextPage(addr, part);
    assert value == v + w;
    PutSplit(m, addr, v, w);
    PutInPage(m, addr, v);
    var mid := m.(bytes := CopyTo(m.bytes, m.table[Page(addr)].host + Offset(addr), v));
    PutInPage(mid, addr + part, w);
  }

  lemma {:induction false} PutThrough(m: Memory, addr: nat, value: seq<Byte>, p: nat, q: nat)
    requires Ok(m) && |value| <= PAGE_SIZE < Offset(addr) + |value|
    requires Pointer(m, addr, Store) == Some(p) && Pointer(m, (Page(addr) + 1) * PAGE_SIZE, Store) == Some(q)
    ensures Reach(m, addr, |value|, Read)
    ensures var part := PAGE_SIZE - Offset(addr);
            p + part <= |m.bytes| && q + (|value| - part) <= |m.bytes|
            && PutBytes(m, addr, value) == m.(bytes := CopyTo(CopyTo(m.bytes, p, value[..part]), q, value[part..]))
  {
    NextPage(addr, PAGE_SIZE - Offset(addr));
    PutAcross(m, addr, value);
  }

  predicate BothPermitted(m: Memory, page: nat) {
    Permitted(m, page, Store) && Permitted(m, page + 1, Store)
  }

  function BothReady(m: Memory, page: nat): Memory
    requires Ok(m)
  {
    TranslateMeaning(m, page, Store);
    Translate(Translate(m, page, Store), page + 1, Store)
  }

  /** Guest memory reads the same. */
  ghost predicate SameBytes(m: Memory, n: Memory) {
    Ok(m) && Ok(n) && forall a :: ByteAt(m, a) == ByteAt(n, a)
  }

  lemma BothReadyMeaning(m: Memory, addr: nat)
    requires Ok(m)
    ensures var one, two := Translate(m, Page(addr), Store), BothReady(m, Page(addr));
            && Ok(one) && SameBytes(one, m) && SameBytes(two, m)
            && Page((Page(addr) + 1) * PAGE_SIZE) == Page(addr) + 1
            && (forall p :: Permitted(one, p, Store) == Permitted(m, p, Store) == Permitted(two, p, Store))
            && Pointer(two, addr, Store) == Pointer(one, addr, Store)
  {
    var one := Translate(m, Page(addr), Store);
    TranslateMeaning(m, Page(addr), Store);
    TranslateMeaning(one, Page(addr) + 1, Store);
    if Page(addr) in one.table { OtherPageKeeps(one, Page(addr), Page(addr) + 1); }
  }

  lemma {:induction false} ReadyAcross(m: Memory, addr: nat, n: nat)
    requires Ok(m) && n <= PAGE_SIZE < Offset(addr) + n
    requires Permitted(m, Page(addr), Store) && Permitted(m, Page(addr) + 1, Store)
    ensures Ready(m, addr, n) == BothReady(m, Page(addr))
    ensures Ok(Ready(m, addr, n)) && Writable(m, addr, n)
    ensures Page(addr) in Ready(m, addr, n).table && Page(addr) + 1 in Ready(m, addr, n).table
  {
    AcrossReach(m, addr, n);
    TranslateMeaning(m, Page(addr), Store);
    TranslateMeaning(Translate(m, Page(addr), Store), Page(addr) + 1, Store);
    AcrossReach(Ready(m, addr, n), addr, n);
  }

  /** The second page of a crossing range is copy-on-write and shares its host page with the first, once
      that one is ready. */
  predicate SharesCow(m: Memory, addr: nat) {
    && Page(addr) in m.table && Page(addr) + 1 in m.table
    && m.table[Page(addr) + 1].cow && m.table[Page(addr) + 1].host == m.table[Page(addr)].host
  }

  /** Making both pages ready first and then copying is the same as storing the bytes one after the other,
      except when the copy of the second page would have taken along bytes just stored in the first that
      were not there before. */
  lemma {:induction false} WholeStoreIsByteStores(m: Memory, addr: nat, value: seq<Byte>)
    requires Ok(m) && Paged(m) && 0 < |value| <= PAGE_SIZE && Reach(m, addr, |value|, Store)
    ensures Writable(m, addr, |value|)
    ensures StoreBytes(m, addr, value) == (PutBytes(Ready(m, addr, |value|), addr, value), |value|)
            <==> (Offset(addr) + |value| > PAGE_SIZE && SharesCow(Translate(m, Page(addr), Store), addr)
                  ==> AlreadyThere(Translate(m, Page(addr), Store), addr, value))
  {
    if Offset(addr) + |value| <= PAGE_SIZE {
      WriteInPage(m, addr, value);
      StoreInPage(m, addr, value);
      PutInPage(Translate(m, Page(addr), Store), addr, value);
    } else {
      AcrossReach(m, addr, |value|);
      ReadyAcross(m, addr, |value|);
      var one := Translate(m, Page(addr), Store);
      TranslateKeepsPages(m, Page(addr), Store);
      TranslateMeaning(m, Page(addr), Store);
      SameOrApart(one.table[Page(addr)].host, one.table[Page(addr) + 1].host);
      StoresAcross(m, addr, value);
      if SharesCow(one, addr) { SharedStores(one, addr, value); } else { ReadyFirst(one, addr, value); }
    }
  }

  /** The part of the value that goes to the first page is what is there. */
  predicate AlreadyThere(m: Memory, addr: nat, value: seq<Byte>) {
    var part := PAGE_SIZE - Offset(addr);
    Ok(m) && Page(addr) in m.table && part <= |value| && m.bytes[m.table[Page(addr)].host + Offset(addr)..][..part] == value[..part]
  }

  /** The byte stores of a crossing value, from the first page ready on. */
  function StoresThen(one: Memory, addr: nat, v: seq<Byte>, w: seq<Byte>): Memory
    requires Ok(one) && Reach(one, addr, |v|, Read) && |w| <= PAGE_SIZE && Offset(addr) + |v| == PAGE_SIZE
    requires Permitted(one, Page(addr) + 1, Store)
  {
    var mid := PutBytes(one, addr, v);
    NextPage(addr, |v|);
    TranslateMeaning(mid, Page(addr) + 1, Store);
    NextReach(Translate(mid, Page(addr) + 1, Store), addr + |v|, |w|);
    PutBytes(Translate(mid, Page(addr) + 1, Store), addr + |v|, w)
  }

  lemma NextReach(m: Memory, addr: nat, n: nat)
    requires Offset(addr) + n <= PAGE_SIZE && Page(addr) in m.table
    ensures Reach(m, addr, n, Read)
  {
    forall a: nat | addr <= a < addr + n ensures Permitted(m, Page(a), Read) { SamePage(addr, a - addr); }
  }

  lemma {:induction false} StoresAcross(m: Memory, addr: nat, value: seq<Byte>)
    requires Ok(m) && |value| <= PAGE_SIZE < Offset(addr) + |value|
    requires Permitted(m, Page(addr), Store) && Permitted(m, Page(addr) + 1, Store)
    requires Writable(m, addr, |value|) && Page(addr + |value| - 1) == Page(addr) + 1
    ensures var part, one := PAGE_SIZE - Offset(addr), Translate(m, Page(addr), Store);
            && Ok(one) && Reach(one, addr, part, Read) && Permitted(one, Page(addr) + 1, Store)
            && StoreBytes(m, addr, value) == (StoresThen(one, addr, value[..part], value[part..]), |value|)
  {
    var part := PAGE_SIZE - Offset(addr);
    var v, w := value[..part], value[part..];
    assert value == v + w;
    NextPage(addr, part);
    var one := Translate(m, Page(addr), Store);
    TranslateMeaning(m, Page(addr), Store);
    NextReach(one, addr, part);
    StoreSplit(m, addr, v, w);
    StoreInPage(m, addr, v);
    StoreInPage(PutBytes(one, addr, v), addr + part, w);
  }

  /** Unless the copy of the second page takes along bytes of the first, both orders are the same. */
  lemma {:induction false} ReadyFirst(one: Memory, addr: nat, value: seq<Byte>)
    requires Ok(one) && |value| <= PAGE_SIZE < Offset(addr) + |value|
    requires Page(addr) in one.table && Permitted(one, Page(addr) + 1, Store)
    requires one.table[Page(addr) + 1].cow ==> Apart(one, Page(addr), Page(addr) + 1)
    ensures var part, two := PAGE_SIZE - Offset(addr), Translate(one, Page(addr) + 1, Store);
            && Ok(two) && Reach(one, addr, part, Read) && Reach(two, addr, |value|, Read)
            && StoresThen(one, addr, value[..part], value[part..]) == PutBytes(two, addr, value)
  {
    var part, two := PAGE_SIZE - Offset(addr), Translate(one, Page(addr) + 1, Store);
    var v, w := value[..part], value[part..];
    assert value == v + w;
    NextPage(addr, part);
    TranslateMeaning(one, Page(addr) + 1, Store);
    NextReach(one, addr, part);
    AcrossReach(two, addr, |value|);
    TranslateAfterPut(one, addr, v, Page(addr) + 1);
    PutSplit(two, addr, v, w);
  }

  /** With the host page shared, the copy made by the second part's first store holds the first part. */
  lemma {:induction false} SharedStores(one: Memory, addr: nat, value: seq<Byte>)
    requires Ok(one) && |value| <= PAGE_SIZE < Offset(addr) + |value|
    requires Direct(one, Page(addr)) && Permitted(one, Page(addr) + 1, Store) && SharesCow(one, addr)
    ensures var part, two := PAGE_SIZE - Offset(addr), Translate(one, Page(addr) + 1, Store);
            && Ok(two) && Reach(one, addr, part, Read) && Reach(two, addr, |value|, Read)
            && (StoresThen(one, addr, value[..part], value[part..]) == PutBytes(two, addr, value) <==> AlreadyThere(one, addr, value))
  {
    var part, two := PAGE_SIZE - Offset(addr), Translate(one, Page(addr) + 1, Store);
    TranslateMeaning(one, Page(addr) + 1, Store);
    AcrossReach(two, addr, |value|);
    NextReach(one, addr, part);
    SharedFirst(one, addr, value[..part], value[part..]);
    SharedWhole(one, addr, value);
    SharedBytes(one.bytes, one.table[Page(addr)].host, Offset(addr), value[..part], value[part..]);
  }

  /** The memory both ways leave, but for the bytes. */
  function SharedWith(one: Memory, page: nat, bytes: seq<Byte>): Memory
    requires page in one.table
  {
    var pte := one.table[page];
    Memory(one.table[page := pte.(host := |one.bytes|, cow := false, code := false)], bytes, one.changes + (if pte.code then 2 else 1))
  }

  function CopyOfStored(bytes: seq<Byte>, host: nat, offset: nat, v: seq<Byte>, w: seq<Byte>): seq<Byte>
    requires host + PAGE_SIZE <= |bytes| && offset + |v| == PAGE_SIZE && |w| <= PAGE_SIZE
  {
    var stored := CopyTo(bytes, host + offset, v);
    CopyTo(stored + stored[host..host + PAGE_SIZE], |bytes|, w)
  }

  function StoredOverCopy(bytes: seq<Byte>, host: nat, offset: nat, v: seq<Byte>, w: seq<Byte>): seq<Byte>
    requires host + PAGE_SIZE <= |bytes| && offset + |v| == PAGE_SIZE && |w| <= PAGE_SIZE
  {
    CopyTo(CopyTo(bytes + bytes[host..host + PAGE_SIZE], host + offset, v), |bytes|, w)
  }

  lemma {:induction false} SharedFirst(one: Memory, addr: nat, v: seq<Byte>, w: seq<Byte>)
    requires Ok(one) && Offset(addr) + |v| == PAGE_SIZE && |w| <= PAGE_SIZE && Reach(one, addr, |v|, Read)
    requires Permitted(one, Page(addr) + 1, Store) && SharesCow(one, addr)
    ensures one.table[Page(addr)].host + PAGE_SIZE <= |one.bytes|
    ensures StoresThen(one, addr, v, w)
         == SharedWith(one, Page(addr) + 1, CopyOfStored(one.bytes, one.table[Page(addr)].host, Offset(addr), v, w))
  {
    NextPage(addr, |v|);
    PutInPage(one, addr, v);
    var page, stored := Page(addr) + 1, CopyTo(one.bytes, one.table[Page(addr)].host + Offset(addr), v);
    SharedTranslate(one, page, stored);
    TranslateMeaning(one.(bytes := stored), page, Store);
    PutInPage(Translate(one.(bytes := stored), page, Store), addr + |v|, w);
  }

  lemma {:induction false} SharedTranslate(one: Memory, page: nat, stored: seq<Byte>)
    requires Ok(one) && Permitted(one, page, Store) && one.table[page].cow && |stored| == |one.bytes|
    ensures var host := one.table[page].host;
            Translate(one.(bytes := stored), page, Store) == SharedWith(one, page, stored + stored[host..host + PAGE_SIZE])
  {}

  lemma {:induction false} SharedWhole(one: Memory, addr: nat, value: seq<Byte>)
    requires Ok(one) && |value| <= PAGE_SIZE < Offset(addr) + |value|
    requires Permitted(one, Page(addr) + 1, Store) && SharesCow(one, addr)
    ensures var part, two := PAGE_SIZE - Offset(addr), Translate(one, Page(addr) + 1, Store);
            && one.table[Page(addr)].host + PAGE_SIZE <= |one.bytes| && Ok(two) && Reach(two, addr, |value|, Read)
            && PutBytes(two, addr, value) == SharedWith(one, Page(addr) + 1,
                 StoredOverCopy(one.bytes, one.table[Page(addr)].host, Offset(addr), value[..part], value[part..]))
  {
    TranslateMeaning(one, Page(addr) + 1, Store);
    PutAcross(Translate(one, Page(addr) + 1, Store), addr, value);
  }

  lemma {:induction false} SharedBytes(bytes: seq<Byte>, host: nat, offset: nat, v: seq<Byte>, w: seq<Byte>)
    requires host + PAGE_SIZE <= |bytes| && offset + |v| == PAGE_SIZE && |w| <= offset
    ensures CopyOfStored(bytes, host, offset, v, w) == StoredOverCopy(bytes, host, offset, v, w)
            <==> bytes[host + offset..][..|v|] == v
  {
    var there := bytes[host + offset..][..|v|];
    if there == v {
      assert CopyTo(bytes, host + offset, v) == bytes;
      CopyThenAppend(bytes, host + offset, v, bytes[host..host + PAGE_SIZE]);
    } else {
      var k :| 0 <= k < |v| && there[k] != v[k];
      CopiedByte(bytes, host, offset, v, w, k);
    }
  }

  lemma {:induction false} CopiedByte(bytes: seq<Byte>, host: nat, offset: nat, v: seq<Byte>, w: seq<Byte>, k: nat)
    requires host + PAGE_SIZE <= |bytes| && offset + |v| == PAGE_SIZE && |w| <= offset && k < |v|
    ensures CopyOfStored(bytes, host, offset, v, w)[|bytes| + offset + k] == v[k]
    ensures StoredOverCopy(bytes, host, offset, v, w)[|bytes| + offset + k] == bytes[host + offset + k]
  {
    var stored := CopyTo(bytes, host + offset, v);
    assert stored[host + offset + k] == v[k];
    assert (stored + stored[host..host + PAGE_SIZE])[|bytes| + offset + k] == stored[host..host + PAGE_SIZE][offset + k];
    var copied := bytes + bytes[host..host + PAGE_SIZE];
    assert copied[|bytes| + offset + k] == bytes[host + offset + k];
    assert CopyTo(copied, host + offset, v)[|bytes| + offset + k] == copied[|bytes| + offset + k];
  }

  /** What was stored is what a load of the same bytes finds. */
  lemma {:induction false} StoredIsLoaded(m: Memory, addr: nat, value: seq<Byte>)
    requires Ok(m) && Paged(m) && |value| <= PAGE_SIZE && Reach(m, addr, |value|, Read)
    ensures LoadBytes(PutBytes(m, addr, value), addr, |value|) == Some(value)
  {
    if value == [] {
    } else if Offset(addr) + |value| <= PAGE_SIZE {
      assert Permitted(m, Page(addr), Read);
      PutInPage(m, addr, value);
      LoadInPage(PutBytes(m, addr, value), addr, |value|);
    } else {
      StoredIsLoadedAcross(m, addr, value);
    }
  }

  lemma {:induction false} StoredIsLoadedAcross(m: Memory, addr: nat, value: seq<Byte>)
    requires Ok(m) && Paged(m) && |value| <= PAGE_SIZE < Offset(addr) + |value| && Reach(m, addr, |value|, Read)
    ensures LoadBytes(PutBytes(m, addr, value), addr, |value|) == Some(value)
  {
    AcrossReach(m, addr, |value|);
    PutAcross(m, addr, value);
    SameOrApart(m.table[Page(addr)].host, m.table[Page(addr) + 1].host);
    LoadedAcross(m, addr, value[..PAGE_SIZE - Offset(addr)], value[PAGE_SIZE - Offset(addr)..]);
    assert value == value[..PAGE_SIZE - Offset(addr)] + value[PAGE_SIZE - Offset(addr)..];
  }

  /** The host bytes of the two parts do not overlap. */
  lemma {:induction false} LoadedAcross(m: Memory, addr: nat, v: seq<Byte>, w: seq<Byte>)
    requires Ok(m) && Offset(addr) + |v| == PAGE_SIZE && 0 < |w| <= Offset(addr)
    requires Page(addr) in m.table && Page(addr) + 1 in m.table
    requires var h, g := m.table[Page(addr)].host, m.table[Page(addr) + 1].host; h == g || h + PAGE_SIZE <= g || g + PAGE_SIZE <= h
    ensures var p, q := m.table[Page(addr)].host + Offset(addr), m.table[Page(addr) + 1].host;
            && p + |v| <= |m.bytes| && q + |w| <= |m.bytes|
            && LoadBytes(m.(bytes := CopyTo(CopyTo(m.bytes, p, v), q, w)), addr, |v| + |w|) == Some(v + w)
  {
    var p, q := m.table[Page(addr)].host + Offset(addr), m.table[Page(addr) + 1].host;
    CopiesStay(m.bytes, p, v, q, w);
    var after := CopyTo(CopyTo(m.bytes, p, v), q, w);
    assert Ok(m.(bytes := after));
    NextPage(addr, |v|);
    LoadAcross(m.(bytes := after), addr, |v|, |w|);
    assert after[p..p + |v|] + after[q..q + |w|] == v + w;
  }

  lemma CopiesStay(bytes: seq<Byte>, p: nat, v: seq<Byte>, q: nat, w: seq<Byte>)
    requires p + |v| <= |bytes| && q + |w| <= |bytes| && (p + |v| <= q || q + |w| <= p)
    ensures var after := CopyTo(CopyTo(bytes, p, v), q, w); after[p..p + |v|] == v && after[q..q + |w|] == w
  {}

  // ---------------------------------------------------------------------------------------------
  // Little-endian words
  // ---------------------------------------------------------------------------------------------

  function Pow256(n: nat): nat { if n == 0 then 1 else 256 * Pow256(n - 1) }

  /** value >> (8 * n) */
  function ShiftRight(value: nat, n: nat): nat
    decreases n
  {
    if n == 0 then value else ShiftRight(value / 256, n - 1)
  }

  function ToLittleEndian(value: nat, n: nat): (r: seq<Byte>)
    ensures |r| == n
    decreases n
  {
    if n == 0 then [] else [value % 256] + ToLittleEndian(value / 256, n - 1)
  }

  function FromLittleEndian(bytes: seq<Byte>): nat {
    if bytes == [] then 0 else bytes[0] + 256 * FromLittleEndian(bytes[1..])
  }

  lemma {:induction false} ByteOfWord(value: nat, n: nat, i: nat)
    requires i < n
    ensures ToLittleEndian(value, n)[i] == ShiftRight(value, i) % 256
    decreases i
  {
    if i > 0 { ByteOfWord(value / 256, n - 1, i - 1); }
  }

  lemma {:induction false} WordRoundTrip(value: nat, n: nat)
    requires value < Pow256(n)
    ensures FromLittleEndian(ToLittleEndian(value, n)) == value
    decreases n
  {
    if n > 0 {
      WordRoundTrip(value / 256, n - 1);
      assert ToLittleEndian(value, n)[1..] == ToLittleEndian(value / 256, n - 1);
    }
  }

  lemma {:induction false} WordAppend(bytes: seq<Byte>, b: Byte)
    ensures FromLittleEndian(bytes + [b]) == FromLittleEndian(bytes) + b * Pow256(|bytes|)
    decreases |bytes|
  {
    if bytes == [] {
      assert bytes + [b] == [b];
    } else {
      WordAppend(bytes[1..], b);
      assert (bytes + [b])[1..] == bytes[1..] + [b];
    }
  }

  function Word(bytes: Option<seq<Byte>>): Option<nat> {
    if bytes == None then None else Some(FromLittleEndian(bytes.value))
  }

  lemma AlignedInPage(addr: nat)
    requires addr % 8 == 0
    ensures Offset(addr) + 8 <= PAGE_SIZE
  {}

  lemma {:induction false} LoadOneMore(m: Memory, addr: nat, i: nat)
    requires Ok(m) && i < 8 && LoadBytes(m, addr, i).Some?
    ensures ByteAt(m, addr + i) == None ==> LoadBytes(m, addr, 8) == None
    ensures ByteAt(m, addr + i).Some? ==> LoadBytes(m, addr, i + 1) == Some(LoadBytes(m, addr, i).value + [ByteAt(m, addr + i).value])
  {
    if ByteAt(m, addr + i) == None {
      LoadSplit(m, addr, i, 8 - i);
      assert LoadBytes(m, addr + i, 8 - i) == None;
    } else {
      LoadSplit(m, addr, i, 1);
      LoadOneByte(m, addr + i);
    }
  }

  lemma {:induction false} LoadLength(m: Memory, addr: nat, n: nat)
    requires Ok(m) && LoadBytes(m, addr, n).Some?
    ensures |LoadBytes(m, addr, n).value| == n
    decreases n
  {
    if n > 0 { LoadLength(m, addr + 1, n - 1); }
  }

  lemma WordOneMore(m: Memory, addr: nat, i: nat, result: nat)
    requires Ok(m) && i < 8 && Word(LoadBytes(m, addr, i)) == Some(result)
    ensures ByteAt(m, addr + i) == None ==> LoadBytes(m, addr, 8) == None
    ensures ByteAt(m, addr + i).Some? ==>
              Word(LoadBytes(m, addr, i + 1)) == Some(result + ByteAt(m, addr + i).value * Pow256(i))
  {
    LoadOneMore(m, addr, i);
    LoadLength(m, addr, i);
    if ByteAt(m, addr + i).Some? {
      WordAppend(LoadBytes(m, addr, i).value, ByteAt(m, addr + i).value);
    }
  }

  lemma LoadOneByte(m: Memory, addr: nat)
    requires Ok(m) && ByteAt(m, addr).Some?
    ensures LoadBytes(m, addr, 1) == Some([ByteAt(m, addr).value])
  {
    var none: seq<Byte> := [];
    assert LoadBytes(m, addr + 1, 0) == Some(none) && [ByteAt(m, addr).value] + none == [ByteAt(m, addr).value];
  }

  lemma StoreOneByte(m: Memory, addr: nat, b: Byte)
    requires Ok(m) && Permitted(m, Page(addr), Store)
    ensures StoreBytes(m, addr, [b]) == (StoreFirst(m, addr, b), 1)
  {
    var value: seq<Byte> := [b];
    var first := StoreFirst(m, addr, value[0]);
    var rest := StoreBytes(first, addr + 1, value[1..]);
    assert value[1..] == [];
    assert rest == (first, 0);
    assert StoreBytes(m, addr, value) == (rest.0, rest.1 + 1);
  }

  lemma {:induction false} StoreOneMore(m: Memory, addr: nat, value: seq<Byte>, i: nat)
    requires Ok(m) && i < |value| && StoreBytes(m, addr, value[..i]).1 == i
    ensures var at := StoreBytes(m, addr, value[..i]).0;
            if Permitted(at, Page(addr + i), Store)
            then StoreBytes(m, addr, value[..i + 1]) == (StoreFirst(at, addr + i, value[i]), i + 1)
            else StoreBytes(m, addr, value) == (at, i)
  {
    assert value == value[..i] + value[i..];
    assert value[..i + 1] == value[..i] + [value[i]];
    var at := StoreBytes(m, addr, value[..i]).0;
    if Permitted(at, Page(addr + i), Store) {
      StoreSplit(m, addr, value[..i], [value[i]]);
      StoreOneByte(at, addr + i, value[i]);
    } else {
      StoreSplit(m, addr, value[..i], value[i..]);
    }
  }

  class Mmu {
    var m: Memory
    constructor (m: Memory)
      ensures this.m == m
    {
      this.m := m;
    }
  }

  class SoftTlb {
    var mmu: Mmu
    var entries: seq<Entry>
    var dirtyPage: nat
    var memChanges: nat
    var segfaultAddr: nat

    ghost predicate Valid()
      reads this`mmu, this`entries, mmu
    {
      Coherent(mmu.m, entries)
    }

    constructor (mmu: Mmu)
      requires Ok(mmu.m)
      ensures Valid() && this.mmu == mmu
    {
      this.mmu := mmu;
      entries := seq(TLB_SIZE, _ => EMPTY);
      dirtyPage, memChanges, segfaultAddr := TLB_PAGE_EMPTY, mmu.m.changes % UNSIGNED, 0;
    }

    method Flush()
      requires Ok(mmu.m)
      modifies this`entries, this`memChanges
      ensures Valid()
    {
      memChanges := mmu.m.changes % UNSIGNED;
      entries := seq(TLB_SIZE, _ => EMPTY);
    }

    /** tlb_refresh: coherent whether the address space is the same one or not. */
    method Refresh(newMmu: Mmu)
      requires Valid() && Ok(newMmu.m)
      modifies this
      ensures Valid() && mmu == newMmu
    {
      if mmu == newMmu && memChanges == mmu.m.changes {
        return;
      }
      mmu := newMmu;
      dirtyPage := TLB_PAGE_EMPTY;
      Flush();
    }

    /** tlb_handle_miss. With no other thread in between, `tries` attempts are made, two at most. */
    method HandleMiss(addr: nat, access: Access) returns (r: Option<nat>, tries: nat)
      requires Valid()
      modifies this`entries, this`memChanges, this`dirtyPage, this`segfaultAddr, mmu
      ensures Valid() && mmu.m == Translate(old(mmu.m), Page(addr), access)
      ensures r == Pointer(mmu.m, addr, access) && tries <= 2 && (r.Some? ==> dirtyPage == PageAddr(addr))
      ensures segfaultAddr == if r == None then addr else old(segfaultAddr)
    {
      PageParts(addr);
      TranslateMeaning(mmu.m, Page(addr), access);
      ghost var done := Translate(mmu.m, Page(addr), access);
      var gen: nat;
      var attempt := 0;
      while true
        invariant Valid() && segfaultAddr == old(segfaultAddr) && attempt <= 1 && mmu == old(mmu)
        invariant mmu.m == if attempt == 0 then old(mmu.m) else done
        decreases 2 - attempt
      {
        gen := mmu.m.changes;
        if gen != memChanges { Flush(); }
        memChanges := gen % UNSIGNED;
        TranslateKeepsCoherence(mmu.m, entries, Page(addr), access);
        mmu.m := Translate(mmu.m, Page(addr), access);
        var now := mmu.m.changes;
        if now == gen { break; }
        if attempt >= 8 {
          gen := now;
          break;
        }
        attempt := attempt + 1;
      }
      memChanges := gen % UNSIGNED;
      tries := attempt + 1;
      r := Pointer(mmu.m, addr, access);
      if r == None {
        segfaultAddr := addr;
        return;
      }
      dirtyPage := PageAddr(addr);
      var writable := access == Store || Direct(mmu.m, Page(addr));
      var entry := Entry(PageAddr(addr), if writable then PageAddr(addr) else TLB_PAGE_EMPTY,
                         r.value - Offset(addr) - PageAddr(addr), gen);
      StampKeepsCoherence(mmu.m, entries, Index(addr), entry);
      entries := entries[Index(addr) := entry];
    }

    /** __tlb_read_ptr: the table's host address, and no change to memory or table. */
    method ReadPtr(addr: nat) returns (r: Option<nat>)
      requires Valid()
      modifies this`entries, this`memChanges, this`dirtyPage, this`segfaultAddr, mmu
      ensures Valid() && mmu.m == old(mmu.m) && r == Pointer(mmu.m, addr, Read)
      ensures segfaultAddr == if r == None then addr else old(segfaultAddr)
    {
      var e := entries[Index(addr)];
      PageParts(addr);
      if e.page == PageAddr(addr) && e.gen == mmu.m.changes {
        assert EntryOk(mmu.m, e);
        return Some(e.dataMinusAddr + addr);
      }
      var tries: nat;
      r, tries := HandleMiss(addr, Read);
    }

    /** __tlb_write_ptr: the host address after the page was made ready for a store. A hit means it was. */
    method WritePtr(addr: nat) returns (r: Option<nat>)
      requires Valid()
      modifies this`entries, this`memChanges, this`dirtyPage, this`segfaultAddr, mmu
      ensures Valid() && mmu.m == Translate(old(mmu.m), Page(addr), Store) && r == Pointer(mmu.m, addr, Store)
      ensures r.Some? ==> Direct(mmu.m, Page(addr)) && dirtyPage == PageAddr(addr)
      ensures segfaultAddr == if r == None then addr else old(segfaultAddr)
    {
      var e := entries[Index(addr)];
      PageParts(addr);
      TranslateMeaning(mmu.m, Page(addr), Store);
      if e.pageIfWritable == PageAddr(addr) && e.gen == mmu.m.changes {
        assert EntryOk(mmu.m, e);
        dirtyPage := PageAddr(addr);
        return Some(e.dataMinusAddr + addr);
      }
      var tries: nat;
      r, tries := HandleMiss(addr, Store);
    }

    /** memcpy to a host address. */
    method CopyOut(at: nat, value: seq<Byte>)
      requires Valid() && at + |value| <= |mmu.m.bytes|
      modifies mmu
      ensures Valid() && mmu.m == old(mmu.m).(bytes := CopyTo(old(mmu.m.bytes), at, value))
    {
      CopyKeepsCoherence(mmu.m, entries, CopyTo(mmu.m.bytes, at, value));
      mmu.m := mmu.m.(bytes := mmu.m.bytes[..at] + value + mmu.m.bytes[at + |value|..]);
    }

    /** tlb_read with __tlb_read_cross_page: the bytes one at a time through the page table, or a fault
        when one of them is not mapped. */
    method ReadBytes(addr: nat, size: nat) returns (r: Option<seq<Byte>>)
      requires Valid() && 0 < size <= PAGE_SIZE
      modifies this`entries, this`memChanges, this`dirtyPage, this`segfaultAddr, mmu
      ensures Valid() && mmu.m == old(mmu.m) && r == LoadBytes(mmu.m, addr, size)
      ensures r == None ==> segfaultAddr == if Page(addr) in mmu.m.table then PageAddr(addr) + PAGE_SIZE else addr
    {
      var first := ReadPtr(addr);
      if Offset(addr) <= PAGE_SIZE - size {
        LoadInPage(mmu.m, addr, size);
        if first == None { return None; }
        return Some(mmu.m.bytes[first.value..first.value + size]);
      }
      var part := PAGE_SIZE - Offset(addr);
      LoadAcross(mmu.m, addr, part, size - part);
      if first == None { return None; }
      var second := ReadPtr((Page(addr) + 1) * PAGE_SIZE);
      if second == None { return None; }
      return Some(mmu.m.bytes[first.value..first.value + part] + mmu.m.bytes[second.value..second.value + (size - part)]);
    }

    method CopyBoth(at: nat, v: seq<Byte>, next: nat, w: seq<Byte>)
      requires Valid() && at + |v| <= |mmu.m.bytes| && next + |w| <= |mmu.m.bytes|
      modifies mmu
      ensures Valid() && mmu.m == old(mmu.m).(bytes := CopyTo(CopyTo(old(mmu.m.bytes), at, v), next, w))
    {
      CopyOut(at, v);
      CopyOut(next, w);
    }

    /** The two pointers of __tlb_write_cross_page. */
    method WritePtrs(addr: nat) returns (first: Option<nat>, second: Option<nat>)
      requires Valid()
      modifies this`entries, this`memChanges, this`dirtyPage, this`segfaultAddr, mmu
      ensures Valid() && (first.Some? && second.Some? <==> BothPermitted(old(mmu.m), Page(addr)))
      ensures first.Some? && second.Some? ==> mmu.m == BothReady(old(mmu.m), Page(addr))
      ensures first.Some? && second.Some? ==>
                first == Pointer(mmu.m, addr, Store) && second == Pointer(mmu.m, (Page(addr) + 1) * PAGE_SIZE, Store)
      ensures first == None || second == None ==> SameBytes(mmu.m, old(mmu.m))
    {
      second := None;
      BothReadyMeaning(mmu.m, addr);
      first := WritePtr(addr);
      if first == None { return; }
      second := WritePtr((Page(addr) + 1) * PAGE_SIZE);
    }

    /** __tlb_write_cross_page: both pages are made ready before a byte is written. */
    method WriteCrossPage(addr: nat, value: seq<Byte>) returns (ok: bool)
      requires Valid() && |value| <= PAGE_SIZE < Offset(addr) + |value|
      modifies this`entries, this`memChanges, this`dirtyPage, this`segfaultAddr, mmu
      ensures Valid() && ok == BothPermitted(old(mmu.m), Page(addr))
      ensures ok ==> Writable(old(mmu.m), addr, |value|)
                     && mmu.m == PutBytes(Ready(old(mmu.m), addr, |value|), addr, value)
      ensures !ok ==> SameBytes(mmu.m, old(mmu.m))
    {
      ghost var was := mmu.m;
      var first, second := WritePtrs(addr);
      if first == None || second == None { return false; }
      var part := PAGE_SIZE - Offset(addr);
      ReadyAcross(was, addr, |value|);
      PutThrough(mmu.m, addr, value, first.value, second.value);
      CopyBoth(first.value, value[..part], second.value, value[part..]);
      return true;
    }

    /** tlb_write: the byte stores of the value through the table, once its pages are ready; a fault leaves
        every byte of guest memory as it was. */
    method WriteBytes(addr: nat, value: seq<Byte>) returns (ok: bool)
      requires Valid() && 0 < |value| <= PAGE_SIZE
      modifies this`entries, this`memChanges, this`dirtyPage, this`segfaultAddr, mmu
      ensures Valid() && ok == Reach(old(mmu.m), addr, |value|, Store)
      ensures ok ==> Writable(old(mmu.m), addr, |value|)
                     && mmu.m == PutBytes(Ready(old(mmu.m), addr, |value|), addr, value)
      ensures !ok ==> SameBytes(mmu.m, old(mmu.m))
    {
      if Offset(addr) > PAGE_SIZE - |value| {
        AcrossReach(mmu.m, addr, |value|);
        ok := WriteCrossPage(addr, value);
        return;
      }
      TranslateMeaning(mmu.m, Page(addr), Store);
      WriteInPage(mmu.m, addr, value);
      var first := WritePtr(addr);
      if first == None { return false; }
      CopyOut(first.value, value);
      return true;
    }

    /** c_load64: the little-endian word of the eight bytes, whatever the alignment. */
    method Load64(addr: nat) returns (r: Option<nat>)
      requires Valid()
      modifies this`entries, this`memChanges, this`dirtyPage, this`segfaultAddr, mmu
      ensures Valid() && mmu.m == old(mmu.m) && r == Word(LoadBytes(mmu.m, addr, 8))
    {
      if addr % 8 != 0 {
        var result, i := 0, 0;
        while i < 8
          invariant Valid() && mmu == old(mmu) && mmu.m == old(mmu.m) && i <= 8
          invariant Word(LoadBytes(mmu.m, addr, i)) == Some(result)
        {
          WordOneMore(mmu.m, addr, i, result);
          var ptr := ReadPtr(addr + i);
          if ptr == None { return None; }
          result := result + mmu.m.bytes[ptr.value] * Pow256(i);
          i := i + 1;
        }
        return Some(result);
      }
      AlignedInPage(addr);
      LoadInPage(mmu.m, addr, 8);
      var ptr := ReadPtr(addr);
      if ptr == None { return None; }
      return Some(FromLittleEndian(mmu.m.bytes[ptr.value..ptr.value + 8]));
    }

    /** One turn of the byte loop of c_store64. */
    method StoreByte(addr: nat, b: Byte) returns (ok: bool)
      requires Valid()
      modifies this`entries, this`memChanges, this`dirtyPage, this`segfaultAddr, mmu
      ensures Valid() && ok == Permitted(old(mmu.m), Page(addr), Store)
      ensures mmu.m == if ok then StoreFirst(old(mmu.m), addr, b) else old(mmu.m)
    {
      StoreFirstIsCopy(mmu.m, addr, b);
      var ptr := WritePtr(addr);
      ok := ptr.Some?;
      if ok { CopyOut(ptr.value, [b]); }
    }

    /** The byte loop of c_store64. */
    method StoreUnaligned(addr: nat, value: nat) returns (ok: bool)
      requires Valid()
      modifies this`entries, this`memChanges, this`dirtyPage, this`segfaultAddr, mmu
      ensures Valid()
      ensures var r := StoreBytes(old(mmu.m), addr, ToLittleEndian(value, 8)); mmu.m == r.0 && ok == (r.1 == 8)
    {
      ghost var word := ToLittleEndian(value, 8);
      ghost var was := mmu.m;
      var i := 0;
      while i < 8
        invariant Valid() && mmu == old(mmu) && i <= 8
        invariant StoreBytes(was, addr, word[..i]) == (mmu.m, i)
      {
        StoreOneMore(was, addr, word, i);
        ByteOfWord(value, 8, i);
        ok := StoreByte(addr + i, ShiftRight(value, i) % 256);
        if !ok { return; }
        i := i + 1;
      }
      assert word[..8] == word;
      return true;
    }

    /** The single store of c_store64. */
    method StoreWord(addr: nat, word: seq<Byte>) returns (ok: bool)
      requires Valid() && addr % 8 == 0 && |word| == 8
      modifies this`entries, this`memChanges, this`dirtyPage, this`segfaultAddr, mmu
      ensures Valid()
      ensures var r := StoreBytes(old(mmu.m), addr, word); mmu.m == r.0 && ok == (r.1 == 8)
    {
      StoreAligned(mmu.m, addr, word);
      var ptr := WritePtr(addr);
      ok := ptr.Some?;
      if ok { CopyOut(ptr.value, word); }
    }

    /** c_store64: single-byte stores of the little-endian word, whatever the alignment; a fault leaves
        exactly the bytes before the faulting one stored. */
    method Store64(addr: nat, value: nat) returns (ok: bool)
      requires Valid()
      modifies this`entries, this`memChanges, this`dirtyPage, this`segfaultAddr, mmu
      ensures Valid()
      ensures var r := StoreBytes(old(mmu.m), addr, ToLittleEndian(value, 8)); mmu.m == r.0 && ok == (r.1 == 8)
    {
      if addr % 8 != 0 {
        ok := StoreUnaligned(addr, value);
      } else {
        ok := StoreWord(addr, ToLittleEndian(value, 8));
      }
    }
  }

  lemma {:induction false} StoreAligned(m: Memory, addr: nat, word: seq<Byte>)
    requires Ok(m) && addr % 8 == 0 && |word| == 8
    ensures var after := Translate(m, Page(addr), Store);
            Ok(after) && Permitted(after, Page(addr), Store) == Permitted(m, Page(addr), Store)
    ensures !Permitted(m, Page(addr), Store) ==> StoreBytes(m, addr, word) == (m, 0)
    ensures var after := Translate(m, Page(addr), Store);
            Permitted(after, Page(addr), Store) ==>
              var p := after.table[Page(addr)].host + Offset(addr);
              p + 8 <= |after.bytes| && StoreBytes(m, addr, word) == (after.(bytes := CopyTo(after.bytes, p, word)), 8)
  {
    AlignedInPage(addr);
    StoreInPage(m, addr, word);
    TranslateMeaning(m, Page(addr), Store);
    if Permitted(m, Page(addr), Store) { PutInPage(Translate(m, Page(addr), Store), addr, word); }
  }

  lemma StoreFirstIsCopy(m: Memory, addr: nat, b: Byte)
    requires Ok(m)
    ensures !Permitted(m, Page(addr), Store) ==> Translate(m, Page(addr), Store) == m
    ensures Permitted(m, Page(addr), Store) ==>
              var after := Translate(m, Page(addr), Store);
              && Ok(after) && Page(addr) in after.table
              && var p := after.table[Page(addr)].host + Offset(addr);
                 p < |after.bytes| && StoreFirst(m, addr, b) == after.(bytes := CopyTo(after.bytes, p, [b]))
    ensures Permitted(Translate(m, Page(addr), Store), Page(addr), Store) == Permitted(m, Page(addr), Store)
  {
    TranslateMeaning(m, Page(addr), Store);
    if Permitted(m, Page(addr), Store) {
      StoreByteIsCopy(Translate(m, Page(addr), Store), addr, b);
    }
  }

  lemma StoreByteIsCopy(m: Memory, addr: nat, b: Byte)
    requires Ok(m) && Page(addr) in m.table
    ensures var p := m.table[Page(addr)].host + Offset(addr);
            PutByte(m, addr, b) == m.(bytes := CopyTo(m.bytes, p, [b]))
  {
    var p := m.table[Page(addr)].host + Offset(addr);
    assert CopyTo(m.bytes, p, [b]) == m.bytes[p := b];
  }
}
