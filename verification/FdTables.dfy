/**
 Descriptor tables and the references they hold (fs/fd.c). A description is an identifier; the refcount
 fields of all descriptions together are `counts`. References a caller has in its own hands, to give to a
 table or to drop, are the ghost `hand`.
 */
module FdTables {

  type Desc = nat

  datatype Option<+T> = None | Some(value: T)

  /** struct fdtable; `users` is its own refcount. */
  datatype Table = Table(files: seq<Option<Desc>>, cloexec: set<nat>, users: nat)

  datatype Error = EBADF | EMFILE | ENOMEM
  datatype Result<+T> = Ok(value: T) | Err(error: Error)

  function One(yes: bool): nat { if yes then 1 else 0 }

  /** How many of a table's slots hold d. */
  function Held(files: seq<Option<Desc>>, d: Desc): nat {
    if files == [] then 0 else Held(files[..|files| - 1], d) + One(files[|files| - 1] == Some(d))
  }

  /** Of all tables. */
  function AllSlots(tables: seq<Table>, d: Desc): nat {
    if tables == [] then 0 else AllSlots(tables[..|tables| - 1], d) + Held(tables[|tables| - 1].files, d)
  }

  /** How many of the lists of references tasks took during a system call name d. */
  function AllRefs(refs: seq<seq<Desc>>, d: Desc): nat {
    if refs == [] then 0 else AllRefs(refs[..|refs| - 1], d) + One(d in refs[|refs| - 1])
  }

  lemma {:induction false} HeldUpdate(files: seq<Option<Desc>>, f: nat, slot: Option<Desc>, d: Desc)
    requires f < |files|
    ensures Held(files[f := slot], d) + One(files[f] == Some(d)) == Held(files, d) + One(slot == Some(d))
    decreases |files|
  {
    var last := |files| - 1;
    if f < last {
      HeldUpdate(files[..last], f, slot, d);
      assert files[f := slot][..last] == files[..last][f := slot];
    } else {
      assert files[f := slot][..last] == files[..last];
    }
  }

  lemma {:induction false} HeldGrow(files: seq<Option<Desc>>, n: nat, d: Desc)
    ensures Held(files + seq(n, _ => None), d) == Held(files, d)
    decreases n
  {
    var more := seq<Option<Desc>>(n, _ => None);
    if n == 0 {
      assert files + more == files;
    } else {
      HeldGrow(files, n - 1, d);
      assert (files + more)[..|files + more| - 1] == files + seq(n - 1, _ => None);
    }
  }

  lemma {:induction false} HeldContains(files: seq<Option<Desc>>, f: nat)
    requires f < |files| && files[f].Some?
    ensures Held(files, files[f].value) > 0
    decreases |files|
  {
    if f < |files| - 1 { HeldContains(files[..|files| - 1], f); }
  }

  lemma {:induction false} SlotsUpdate(tables: seq<Table>, t: nat, table: Table, d: Desc)
    requires t < |tables|
    ensures AllSlots(tables[t := table], d) + Held(tables[t].files, d) == AllSlots(tables, d) + Held(table.files, d)
    decreases |tables|
  {
    var last := |tables| - 1;
    if t < last {
      SlotsUpdate(tables[..last], t, table, d);
      assert tables[t := table][..last] == tables[..last][t := table];
    } else {
      assert tables[t := table][..last] == tables[..last];
    }
  }

  lemma {:induction false} RefsUpdate(refs: seq<seq<Desc>>, k: nat, list: seq<Desc>, d: Desc)
    requires k < |refs|
    ensures AllRefs(refs[k := list], d) + One(d in refs[k]) == AllRefs(refs, d) + One(d in list)
    decreases |refs|
  {
    var last := |refs| - 1;
    if k < last {
      RefsUpdate(refs[..last], k, list, d);
      assert refs[k := list][..last] == refs[..last][k := list];
    } else {
      assert refs[k := list][..last] == refs[..last];
    }
  }

  lemma {:induction false} SlotsContain(tables: seq<Table>, t: nat, f: nat)
    requires t < |tables| && f < |tables[t].files| && tables[t].files[f].Some?
    ensures AllSlots(tables, tables[t].files[f].value) > 0
    decreases |tables|
  {
    if t < |tables| - 1 { SlotsContain(tables[..|tables| - 1], t, f); } else { HeldContains(tables[t].files, f); }
  }

  predicate NoDup(l: seq<Desc>) {
    l == [] || (l[|l| - 1] !in l[..|l| - 1] && NoDup(l[..|l| - 1]))
  }

  /** A close-on-exec bit is set only on a slot in use. */
  predicate BitsOk(table: Table) {
    forall f {:trigger f in table.cloexec} :: f in table.cloexec ==> InUse(table, f)
  }

  predicate InUse(table: Table, f: int) {
    0 <= f < |table.files| && table.files[f].Some?
  }

  /** Slot f emptied. */
  function Emptied(table: Table, f: nat): Table
    requires f < |table.files|
  {
    table.(files := table.files[f := None], cloexec := table.cloexec - {f})
  }

  /** fdtable_resize, if the table is not that large yet. */
  function Grown(table: Table, size: nat): Table {
    if |table.files| >= size then table else table.(files := table.files + seq(size - |table.files|, _ => None))
  }

  /** d put in slot f, of a table large enough. */
  function Filled(table: Table, f: nat, d: Desc): Table
    requires f < |table.files|
  {
    table.(files := table.files[f := Some(d)], cloexec := table.cloexec - {f})
  }

  /** f is free, and every slot from `start` up to it is in use. */
  ghost predicate LowestFree(table: Table, start: nat, f: nat) {
    start <= f && !InUse(table, f) && forall g :: start <= g < f ==> InUse(table, g)
  }

  /** Every reference is accounted for: a slot of a table, an entry of a task's list, or a caller's hand. */
  ghost predicate Accounted(counts: multiset<Desc>, tables: seq<Table>, refs: seq<seq<Desc>>, hand: multiset<Desc>) {
    forall d: Desc :: counts[d] == AllSlots(tables, d) + AllRefs(refs, d) + hand[d]
  }

  lemma EmptyAccounted(counts: multiset<Desc>, tables: seq<Table>, refs: seq<seq<Desc>>, hand: multiset<Desc>, t: nat, f: nat)
    requires Accounted(counts, tables, refs, hand) && t < |tables| && f < |tables[t].files| && tables[t].files[f].Some?
    ensures var d := tables[t].files[f].value;
            counts[d] > 0 && Accounted(counts[d := counts[d] - 1], tables[t := Emptied(tables[t], f)], refs, hand)
  {
    SlotsContain(tables, t, f);
    forall d: Desc ensures AllSlots(tables[t := Emptied(tables[t], f)], d) + One(tables[t].files[f] == Some(d)) == AllSlots(tables, d) {
      HeldUpdate(tables[t].files, f, None, d);
      SlotsUpdate(tables, t, Emptied(tables[t], f), d);
    }
  }

  lemma FillAccounted(counts: multiset<Desc>, tables: seq<Table>, refs: seq<seq<Desc>>, hand: multiset<Desc>, t: nat, f: nat, d: Desc)
    requires Accounted(counts, tables, refs, hand) && t < |tables| && f < |tables[t].files| && tables[t].files[f].None?
    requires hand[d] > 0
    ensures Accounted(counts, tables[t := Filled(tables[t], f, d)], refs, hand[d := hand[d] - 1])
  {
    forall x: Desc ensures AllSlots(tables[t := Filled(tables[t], f, d)], x) == AllSlots(tables, x) + One(x == d) {
      HeldUpdate(tables[t].files, f, Some(d), x);
      SlotsUpdate(tables, t, Filled(tables[t], f, d), x);
    }
  }

  lemma GrowAccounted(counts: multiset<Desc>, tables: seq<Table>, refs: seq<seq<Desc>>, hand: multiset<Desc>, t: nat, size: nat)
    requires Accounted(counts, tables, refs, hand) && t < |tables|
    ensures Accounted(counts, tables[t := Grown(tables[t], size)], refs, hand)
    ensures BitsOk(tables[t]) ==> BitsOk(Grown(tables[t], size))
  {
    forall d: Desc ensures AllSlots(tables[t := Grown(tables[t], size)], d) == AllSlots(tables, d) {
      if |tables[t].files| < size { HeldGrow(tables[t].files, size - |tables[t].files|, d); }
      SlotsUpdate(tables, t, Grown(tables[t], size), d);
    }
  }

  function Marked(table: Table, f: nat, cloexec: bool): Table {
    if cloexec then table.(cloexec := table.cloexec + {f}) else table
  }

  function Redirected(table: Table, f: nat, d: Desc, cloexec: bool): Table {
    Marked(Filled(Grown(table, f + 1), f, d), f, cloexec)
  }

  /** A descriptor put in slot f, over what was there or in a free slot, and then an exec: it is gone if it was
      asked to close on exec and open if not, every other descriptor goes by its own bit, and none is new. */
  lemma {:induction false} OpenedThenExec(before: Table, f: nat, d: Desc, cloexec: bool, after: Table)
    requires BitsOk(before)
    requires var filled := Redirected(before, f, d, cloexec); Swept(filled, after, |filled.files|)
    ensures InUse(after, f) <==> !cloexec
    ensures !cloexec ==> after.files[f] == Some(d)
    ensures forall g :: g != f ==> (InUse(after, g) <==> InUse(before, g) && g !in before.cloexec)
    ensures forall g :: g != f && InUse(after, g) ==> after.files[g] == before.files[g]
    ensures after.cloexec == {} && |after.files| == if |before.files| > f then |before.files| else f + 1
  {
    var filled := Redirected(before, f, d, cloexec);
    assert filled.files[f] == Some(d) && (f in filled.cloexec <==> cloexec);
    assert BitsOk(filled);
    assert forall g :: g in filled.cloexec ==> InUse(filled, g);
  }

  lemma SameFilesAccounted(counts: multiset<Desc>, tables: seq<Table>, refs: seq<seq<Desc>>, hand: multiset<Desc>, t: nat, table: Table)
    requires Accounted(counts, tables, refs, hand) && t < |tables| && table.files == tables[t].files
    ensures Accounted(counts, tables[t := table], refs, hand)
  {
    forall d: Desc ensures AllSlots(tables[t := table], d) == AllSlots(tables, d) { SlotsUpdate(tables, t, table, d); }
  }

  lemma HoldAccounted(counts: multiset<Desc>, tables: seq<Table>, refs: seq<seq<Desc>>, hand: multiset<Desc>, k: nat, d: Desc)
    requires Accounted(counts, tables, refs, hand) && k < |refs| && d !in refs[k] && NoDup(refs[k])
    ensures Accounted(counts[d := counts[d] + 1], tables, refs[k := refs[k] + [d]], hand) && NoDup(refs[k] + [d])
  {
    assert (refs[k] + [d])[..|refs[k]|] == refs[k];
    forall x: Desc ensures AllRefs(refs[k := refs[k] + [d]], x) == AllRefs(refs, x) + One(x == d) {
      RefsUpdate(refs, k, refs[k] + [d], x);
    }
  }

  /** The references of a list without duplicates, taken in hand. */
  function InHand(hand: multiset<Desc>, list: seq<Desc>): multiset<Desc> {
    hand + multiset(list)
  }

  lemma {:induction false} CountNoDup(list: seq<Desc>, d: Desc)
    requires NoDup(list)
    ensures multiset(list)[d] == One(d in list)
    decreases |list|
  {
    if list != [] {
      var front, last := list[..|list| - 1], list[|list| - 1];
      CountNoDup(front, d);
      assert list == front + [last];
    }
  }

  lemma TakeAccounted(counts: multiset<Desc>, tables: seq<Table>, refs: seq<seq<Desc>>, hand: multiset<Desc>, k: nat)
    requires Accounted(counts, tables, refs, hand) && k < |refs| && NoDup(refs[k])
    ensures Accounted(counts, tables, refs[k := []], InHand(hand, refs[k]))
  {
    forall d: Desc ensures AllRefs(refs[k := []], d) + One(d in refs[k]) == AllRefs(refs, d) { RefsUpdate(refs, k, [], d); }
    forall d: Desc ensures InHand(hand, refs[k])[d] == hand[d] + One(d in refs[k]) { CountNoDup(refs[k], d); }
  }

  /** The drain has dropped the first i references of the list. */
  ghost predicate Dropping(handWas: multiset<Desc>, hand: multiset<Desc>, countsWas: multiset<Desc>, counts: multiset<Desc>, list: seq<Desc>, i: nat) {
    && i <= |list| && NoDup(list) && hand == InHand(handWas, list[i..])
    && forall d: Desc :: counts[d] + One(d in list[..i]) == countsWas[d]
  }

  lemma {:induction false} NoDupBefore(list: seq<Desc>, i: nat)
    requires NoDup(list) && i < |list|
    ensures list[i] !in list[..i]
    decreases |list|
  {
    if i < |list| - 1 {
      var front := list[..|list| - 1];
      NoDupBefore(front, i);
      assert front[..i] == list[..i];
    }
  }

  lemma {:induction false} DropNext(handWas: multiset<Desc>, hand: multiset<Desc>, countsWas: multiset<Desc>, counts: multiset<Desc>, list: seq<Desc>, i: nat)
    requires i < |list| && Dropping(handWas, hand, countsWas, counts, list, i)
    ensures var d := list[i];
            hand[d] > 0 && (counts[d] > 0 ==> Dropping(handWas, hand[d := hand[d] - 1], countsWas, counts[d := counts[d] - 1], list, i + 1))
  {
    NoDupBefore(list, i);
    assert list[i..] == [list[i]] + list[i + 1..];
    assert list[..i + 1] == list[..i] + [list[i]];
    assert hand[list[i] := hand[list[i]] - 1] == InHand(handWas, list[i + 1..]);
  }

  lemma DropsDone(handWas: multiset<Desc>, hand: multiset<Desc>, countsWas: multiset<Desc>, counts: multiset<Desc>, list: seq<Desc>)
    requires Dropping(handWas, hand, countsWas, counts, list, |list|)
    ensures hand == handWas && forall d: Desc :: counts[d] == countsWas[d] - One(d in list)
  {
    assert list[|list|..] == [] && list[..|list|] == list;
  }

  /** The slots a close-on-exec pass has left after n of them. */
  ghost predicate Swept(before: Table, after: Table, n: nat) {
    && |after.files| == |before.files| && after.users == before.users
    && (forall f :: 0 <= f < |before.files| ==>
          after.files[f] == if f < n && f in before.cloexec then None else before.files[f])
    && (forall f {:trigger f in after.cloexec} :: f in after.cloexec <==> f in before.cloexec && f >= n)
  }

  lemma SweepStep(before: Table, after: Table, n: nat)
    requires Swept(before, after, n) && n < |after.files| && BitsOk(before)
    ensures if n in after.cloexec then InUse(after, n) && Swept(before, Emptied(after, n), n + 1) else Swept(before, after, n + 1)
  {}

  /** Closing a slot first makes no difference to what is put in it. */
  lemma EmptiedFilled(table: Table, f: nat, d: Desc)
    requires f < |table.files|
    ensures Filled(Emptied(table, f), f, d) == Filled(table, f, d)
  {
    assert table.files[f := None][f := Some(d)] == table.files[f := Some(d)];
    assert table.cloexec - {f} - {f} == table.cloexec - {f};
  }

  lemma CopyAccounted(before: multiset<Desc>, after: multiset<Desc>, tables: seq<Table>, refs: seq<seq<Desc>>, hand: multiset<Desc>, t: nat)
    requires Accounted(before, tables, refs, hand) && t < |tables|
    requires forall d: Desc :: after[d] == before[d] + Held(tables[t].files, d)
    ensures Accounted(after, tables + [Table(tables[t].files, tables[t].cloexec, 1)], refs, hand)
  {
    var more := tables + [Table(tables[t].files, tables[t].cloexec, 1)];
    assert more[..|more| - 1] == tables;
    forall d: Desc ensures AllSlots(more, d) == AllSlots(tables, d) + Held(tables[t].files, d) {}
  }

  lemma UsersAccounted(counts: multiset<Desc>, tables: seq<Table>, refs: seq<seq<Desc>>, hand: multiset<Desc>, t: nat, users: nat)
    requires Accounted(counts, tables, refs, hand) && t < |tables|
    ensures Accounted(counts, tables[t := tables[t].(users := users)], refs, hand)
  {
    SameFilesAccounted(counts, tables, refs, hand, t, tables[t].(users := users));
  }

  lemma {:induction false} HeldNone(files: seq<Option<Desc>>, d: Desc)
    requires forall i :: 0 <= i < |files| ==> files[i].None?
    ensures Held(files, d) == 0
    decreases |files|
  {
    if files != [] { HeldNone(files[..|files| - 1], d); }
  }

  lemma NoneAccounted(counts: multiset<Desc>, tables: seq<Table>, refs: seq<seq<Desc>>, hand: multiset<Desc>, t: nat)
    requires Accounted(counts, tables, refs, hand) && t < |tables|
    requires forall i :: 0 <= i < |tables[t].files| ==> tables[t].files[i].None?
    ensures Accounted(counts, tables[t := Table([], {}, 0)], refs, hand)
  {
    forall d: Desc ensures AllSlots(tables[t := Table([], {}, 0)], d) == AllSlots(tables, d) {
      HeldNone(tables[t].files, d);
      SlotsUpdate(tables, t, Table([], {}, 0), d);
    }
  }

  lemma SetTwice(tables: seq<Table>, t: nat, first: Table, second: Table)
    requires t < |tables|
    ensures tables[t := first][t := second] == tables[t := second]
  {}

  lemma TakenAndGiven(hand: multiset<Desc>, d: Desc)
    ensures var raised := hand[d := hand[d] + 1]; raised[d := raised[d] - 1] == hand
  {}

  /** One more for each of the first f slots in use. */
  ghost predicate RaisedTo(files: seq<Option<Desc>>, f: nat, was: multiset<Desc>, now: multiset<Desc>) {
    f <= |files| && forall d: Desc :: now[d] == was[d] + Held(files[..f], d)
  }

  lemma RaiseStep(files: seq<Option<Desc>>, f: nat, was: multiset<Desc>, now: multiset<Desc>)
    requires f < |files| && RaisedTo(files, f, was, now)
    ensures RaisedTo(files, f + 1, was, if files[f].Some? then now[files[f].value := now[files[f].value] + 1] else now)
    ensures files[f].Some? ==> now[files[f].value] >= was[files[f].value]
  {
    assert files[..f + 1][..f] == files[..f];
  }

  class Kernel {
    var counts: multiset<Desc>      // refcount of every description
    var closed: seq<Desc>           // the descriptions destroyed, in order
    var made: nat                   // descriptions made so far are the identifiers below this
    var tables: seq<Table>
    var refs: seq<seq<Desc>>        // syscall_refs of every task
    ghost var hand: multiset<Desc>

    ghost predicate Conserved()
      reads this`counts, this`tables, this`refs, this`hand
    {
      Accounted(counts, tables, refs, hand)
    }

    /** A description is destroyed once, when its last reference goes. */
    ghost predicate LifeOk()
      reads this`counts, this`closed, this`made
    {
      && NoDup(closed) && (forall d {:trigger d in closed} :: d in closed ==> d < made)
      && (forall d: Desc {:trigger counts[d]} :: counts[d] > 0 <==> d < made && d !in closed)
    }

    ghost predicate TablesOk()
      reads this`tables, this`refs
    {
      (forall t :: 0 <= t < |tables| ==> BitsOk(tables[t])) && (forall k :: 0 <= k < |refs| ==> NoDup(refs[k]))
    }

    ghost predicate Valid()
      reads this
    {
      Conserved() && LifeOk() && TablesOk()
    }

    constructor (tasks: nat)
      ensures Valid() && tables == [] && hand == multiset{} && closed == [] && refs == seq(tasks, _ => [])
    {
      counts, closed, made, tables := multiset{}, [], 0, [];
      refs := seq(tasks, _ => []);
      hand := multiset{};
      new;
      ghost var none := seq<seq<Desc>>(tasks, _ => []);
      assert refs == none;
      forall d: Desc ensures AllRefs(none, d) == 0 { NoRefs(tasks, d); }
    }

    /** fd_create: one reference, in the maker's hands. */
    method Create() returns (d: Desc)
      requires Valid()
      modifies this`counts, this`made, this`hand
      ensures Valid() && old(counts)[d] == 0 && d !in closed
      ensures counts == old(counts)[d := 1] && hand == old(hand)[d := old(hand)[d] + 1]
    {
      d := made;
      assert counts[d] == 0;
      made := made + 1;
      counts := counts[d := 1];
      hand := hand[d := hand[d] + 1];
    }

    /** fd_retain: one more, in the caller's hands. */
    method Retain(d: Desc)
      requires Valid() && counts[d] > 0
      modifies this`counts, this`hand
      ensures Valid() && counts == old(counts)[d := old(counts)[d] + 1] && hand == old(hand)[d := old(hand)[d] + 1]
    {
      counts := counts[d := counts[d] + 1];
      hand := hand[d := hand[d] + 1];
    }

    /** fd_close: destroyed exactly when the last reference goes. */
    method FdClose(d: Desc)
      requires counts[d] > 0 && LifeOk()
      modifies this`counts, this`closed
      ensures LifeOk() && counts == old(counts)[d := old(counts)[d] - 1]
      ensures closed == if old(counts)[d] == 1 then old(closed) + [d] else old(closed)
    {
      counts := counts[d := counts[d] - 1];
      if counts[d] == 0 {
        assert (closed + [d])[..|closed|] == closed;
        closed := closed + [d];
      }
    }

    /** fd_close of a reference in the caller's hands. */
    method Drop(d: Desc)
      requires Valid() && hand[d] > 0
      modifies this`counts, this`closed, this`hand
      ensures Valid() && counts == old(counts)[d := old(counts)[d] - 1] && hand == old(hand)[d := old(hand)[d] - 1]
      ensures closed == if old(counts)[d] == 1 then old(closed) + [d] else old(closed)
    {
      FdClose(d);
      hand := hand[d := hand[d] - 1];
    }

    /** fdtable_close */
    method TableClose(t: nat, f: int) returns (r: Result<()>)
      requires Valid() && t < |tables|
      modifies this`counts, this`closed, this`tables
      ensures Valid() && (r.Ok? <==> InUse(old(tables)[t], f))
      ensures r.Ok? ==> tables == old(tables)[t := Emptied(old(tables)[t], f)]
      ensures r.Err? ==> r.error == EBADF && tables == old(tables) && counts == old(counts) && closed == old(closed)
    {
      if f < 0 || f >= |tables[t].files| { return Err(EBADF); }
      var slot := tables[t].files[f];
      if slot.None? { return Err(EBADF); }
      EmptyAccounted(counts, tables, refs, hand, t, f);
      FdClose(slot.value);
      tables := tables[t := Emptied(tables[t], f)];
      return Ok(());
    }

    /** fdtable_expand */
    method Expand(t: nat, max: nat, rlimit: nat) returns (ok: bool)
      requires Valid() && t < |tables|
      modifies this`tables
      ensures Valid() && ok == (max + 1 <= rlimit)
      ensures tables == if ok then old(tables)[t := Grown(old(tables)[t], max + 1)] else old(tables)
    {
      if max + 1 > rlimit { return false; }
      GrowAccounted(counts, tables, refs, hand, t, max + 1);
      if |tables[t].files| < max + 1 {
        tables := tables[t := tables[t].(files := tables[t].files + seq(max + 1 - |tables[t].files|, _ => None))];
      }
      return true;
    }

    /** The caller's reference goes into an empty slot. */
    method Fill(t: nat, f: nat, d: Desc)
      requires Valid() && t < |tables| && f < |tables[t].files| && tables[t].files[f].None? && hand[d] > 0
      modifies this`tables, this`hand
      ensures Valid() && hand == old(hand)[d := old(hand)[d] - 1] && tables == old(tables)[t := Filled(old(tables)[t], f, d)]
    {
      FillAccounted(counts, tables, refs, hand, t, f, d);
      tables := tables[t := tables[t].(files := tables[t].files[f := Some(d)], cloexec := tables[t].cloexec - {f})];
      hand := hand[d := hand[d] - 1];
    }

    /** The scan of f_install_start over the first `size` slots. */
    method FirstFree(t: nat, start: nat, size: nat) returns (f: nat)
      requires t < |tables| && size <= |tables[t].files|
      ensures start <= f && (f < size ==> tables[t].files[f].None?)
      ensures forall g :: start <= g < f ==> InUse(tables[t], g)
      ensures f >= size ==> f == if start > size then start else size
    {
      f := start;
      while f < size && tables[t].files[f].Some?
        invariant start <= f && (f <= size || f == start) && forall g :: start <= g < f ==> InUse(tables[t], g)
      {
        f := f + 1;
      }
    }

    /** f_install_start: the lowest free slot from `start` on takes the caller's reference; with none left
        below the limit the reference is dropped. */
    method InstallStart(t: nat, d: Desc, start: nat, rlimit: nat) returns (r: Result<nat>)
      requires Valid() && t < |tables| && hand[d] > 0
      modifies this`counts, this`closed, this`tables, this`hand
      ensures Valid() && hand == old(hand)[d := old(hand)[d] - 1]
      ensures r.Ok? ==> LowestFree(old(tables)[t], start, r.value) && r.value < rlimit && counts == old(counts)
      ensures r.Ok? ==> tables == old(tables)[t := Redirected(old(tables)[t], r.value, d, false)]
      ensures r.Err? ==> r.error == EMFILE && tables == old(tables) && counts == old(counts)[d := old(counts)[d] - 1]
      ensures r.Err? ==> forall g :: start <= g < rlimit ==> InUse(old(tables)[t], g)
    {
      var size := if rlimit > |tables[t].files| then |tables[t].files| else rlimit;
      var f := FirstFree(t, start, size);
      if f >= size {
        var ok := Expand(t, f, rlimit);
        if !ok {
          Drop(d);
          return Err(EMFILE);
        }
      }
      assert tables == old(tables)[t := Grown(old(tables)[t], f + 1)];
      PlaceGrown(t, f, d, old(tables));
      return Ok(f);
    }

    /** Slot f of a table just made large enough takes the caller's reference. */
    method PlaceGrown(t: nat, f: nat, d: Desc, ghost before: seq<Table>)
      requires Valid() && hand[d] > 0 && t < |before| && !InUse(before[t], f)
      requires tables == before[t := Grown(before[t], f + 1)]
      modifies this`tables, this`hand
      ensures Valid() && hand == old(hand)[d := old(hand)[d] - 1]
      ensures tables == before[t := Filled(Grown(before[t], f + 1), f, d)]
    {
      ghost var grown := Grown(before[t], f + 1);
      SetTwice(before, t, grown, Filled(grown, f, d));
      Fill(t, f, d);
    }

    /** f_install */
    method Install(t: nat, d: Desc, cloexec: bool, rlimit: nat) returns (r: Result<nat>)
      requires Valid() && t < |tables| && hand[d] > 0
      modifies this`counts, this`closed, this`tables, this`hand
      ensures Valid() && hand == old(hand)[d := old(hand)[d] - 1]
      ensures r.Ok? ==> LowestFree(old(tables)[t], 0, r.value) && r.value < rlimit && counts == old(counts)
      ensures r.Ok? ==> tables == old(tables)[t := Redirected(old(tables)[t], r.value, d, cloexec)]
      ensures r.Err? ==> r.error == EMFILE && tables == old(tables) && counts == old(counts)[d := old(counts)[d] - 1]
    {
      r := InstallStart(t, d, 0, rlimit);
      if r.Ok? && cloexec { SetBit(t, r.value); }
    }

    method SetBit(t: nat, f: nat)
      requires Valid() && t < |tables| && InUse(tables[t], f)
      modifies this`tables
      ensures Valid() && tables == old(tables)[t := Marked(old(tables)[t], f, true)]
    {
      SameFilesAccounted(counts, tables, refs, hand, t, Marked(tables[t], f, true));
      tables := tables[t := tables[t].(cloexec := tables[t].cloexec + {f})];
    }

    /** syscall_ref_hold: a description is listed once however often it is looked up. */
    method Hold(k: nat, d: Desc, grows: bool) returns (ok: bool)
      requires Valid() && k < |refs| && counts[d] > 0
      modifies this`counts, this`refs
      ensures Valid() && (!ok ==> !grows && d !in old(refs)[k])
      ensures ok && d !in old(refs)[k] ==> refs == old(refs)[k := old(refs)[k] + [d]] && counts == old(counts)[d := old(counts)[d] + 1]
      ensures !ok || d in old(refs)[k] ==> refs == old(refs) && counts == old(counts)
    {
      var i := 0;
      while i < |refs[k]|
        invariant i <= |refs[k]| && d !in refs[k][..i]
      {
        if refs[k][i] == d { return true; }
        assert refs[k][..i + 1] == refs[k][..i] + [refs[k][i]];
        i := i + 1;
      }
      assert refs[k][..i] == refs[k];
      if !grows { return false; }
      HoldAccounted(counts, tables, refs, hand, k, d);
      counts := counts[d := counts[d] + 1];
      refs := refs[k := refs[k] + [d]];
      return true;
    }

    /** f_get */
    method Get(k: nat, t: nat, f: int, grows: bool) returns (r: Option<Desc>)
      requires Valid() && k < |refs| && t < |tables|
      modifies this`counts, this`refs
      ensures Valid() && |refs| == |old(refs)|
      ensures r.Some? ==> InUse(tables[t], f) && tables[t].files[f] == r && r.value in refs[k] && counts[r.value] > 0
      ensures r.None? ==> (!InUse(tables[t], f) || !grows) && counts == old(counts) && refs == old(refs)
    {
      if f < 0 || f >= |tables[t].files| || tables[t].files[f].None? { return None; }
      var d := tables[t].files[f].value;
      SlotsContain(tables, t, f);
      var ok := Hold(k, d, grows);
      return if ok then Some(d) else None;
    }

    /** syscall_refs_release: the list is emptied first, then every reference in it is dropped. */
    method Drain(k: nat)
      requires Valid() && k < |refs|
      modifies this`counts, this`closed, this`refs, this`hand
      ensures Valid() && refs == old(refs)[k := []] && hand == old(hand)
      ensures forall d: Desc :: counts[d] == old(counts)[d] - One(d in old(refs)[k])
    {
      var list := refs[k];
      ghost var handWas := hand;
      TakeAccounted(counts, tables, refs, hand, k);
      refs := refs[k := []];
      hand := InHand(hand, list);
      DropAll(list, handWas);
    }

    /** Every reference of the list, once. */
    method DropAll(list: seq<Desc>, ghost handWas: multiset<Desc>)
      requires Valid() && NoDup(list) && hand == InHand(handWas, list)
      modifies this`counts, this`closed, this`hand
      ensures Valid() && hand == handWas && forall d: Desc :: counts[d] == old(counts)[d] - One(d in list)
    {
      ghost var countsWas := counts;
      var i := 0;
      while i < |list|
        invariant i <= |list| && Valid() && Dropping(handWas, hand, countsWas, counts, list, i)
      {
        DropNext(handWas, hand, countsWas, counts, list, i);
        Drop(list[i]);
        i := i + 1;
      }
      DropsDone(handWas, hand, countsWas, counts, list);
    }

    /** sys_dup, through f_install without flags: the lowest free descriptor becomes another reference to the same description. */
    method Dup(k: nat, t: nat, f: int, rlimit: nat, grows: bool) returns (r: Result<nat>)
      requires Valid() && k < |refs| && t < |tables|
      modifies this`counts, this`closed, this`tables, this`refs, this`hand
      ensures Valid() && hand == old(hand)
      ensures r.Ok? ==> InUse(old(tables)[t], f) && LowestFree(old(tables)[t], 0, r.value) && r.value < rlimit
      ensures r.Ok? ==> tables == old(tables)[t := Redirected(old(tables)[t], r.value, old(tables)[t].files[f].value, false)]
      ensures r.Err? ==> tables == old(tables) && (r.error == EBADF ==> !InUse(old(tables)[t], f) || !grows)
    {
      var got := Get(k, t, f, grows);
      if got.None? { return Err(EBADF); }
      assert tables == old(tables) && got == tables[t].files[f];
      TakenAndGiven(hand, got.value);
      Retain(got.value);
      r := InstallStart(t, got.value, 0, rlimit);
    }

    /** The part of sys_dup3 after the table is large enough: whatever is in the slot goes first. */
    method Replace(t: nat, f: nat, d: Desc, cloexec: bool)
      requires Valid() && t < |tables| && f < |tables[t].files| && hand[d] > 0
      modifies this`counts, this`closed, this`tables, this`hand
      ensures Valid() && hand == old(hand)[d := old(hand)[d] - 1]
      ensures tables == old(tables)[t := Marked(Filled(old(tables)[t], f, d), f, cloexec)]
    {
      var closing := TableClose(t, f);
      EmptiedFilled(old(tables)[t], f, d);
      Fill(t, f, d);
      if cloexec { SetBit(t, f); }
    }

    /** sys_dup3 */
    method Dup3(k: nat, t: nat, f: int, newF: nat, cloexec: bool, rlimit: nat, grows: bool) returns (r: Result<nat>)
      requires Valid() && k < |refs| && t < |tables|
      modifies this`counts, this`closed, this`tables, this`refs, this`hand
      ensures Valid() && hand == old(hand)
      ensures r.Ok? ==> r.value == newF < rlimit && InUse(old(tables)[t], f)
      ensures r.Ok? ==> tables == old(tables)[t := Redirected(old(tables)[t], newF, old(tables)[t].files[f].value, cloexec)]
      ensures r.Err? ==> tables == old(tables) && (r.error == EMFILE ==> newF >= rlimit)
    {
      var got := Get(k, t, f, grows);
      if got.None? { return Err(EBADF); }
      var ok := Expand(t, newF, rlimit);
      if !ok { return Err(EMFILE); }
      TakenAndGiven(hand, got.value);
      ghost var grown := Grown(old(tables)[t], newF + 1);
      SetTwice(old(tables), t, grown, Marked(Filled(grown, newF, got.value), newF, cloexec));
      Retain(got.value);
      Replace(t, newF, got.value, cloexec);
      return Ok(newF);
    }

    /** One more reference for every slot in use. */
    method RetainSlots(t: nat)
      requires Valid() && t < |tables|
      modifies this`counts
      ensures LifeOk() && forall d: Desc :: counts[d] == old(counts)[d] + Held(tables[t].files, d)
    {
      var files := tables[t].files;
      ghost var countsWas := counts;
      var f := 0;
      while f < |files|
        invariant LifeOk() && RaisedTo(files, f, countsWas, counts)
      {
        RaiseStep(files, f, countsWas, counts);
        if files[f].Some? {
          SlotsContain(tables, t, f);
          counts := counts[files[f].value := counts[files[f].value] + 1];
        }
        f := f + 1;
      }
      assert files[..f] == files;
    }

    /** fdtable_copy: the copy's slots are references of their own. */
    method CopyTable(t: nat) returns (copy: nat)
      requires Valid() && t < |tables|
      modifies this`counts, this`tables
      ensures Valid() && copy == |old(tables)| && tables == old(tables) + [old(tables)[t].(users := 1)]
      ensures forall d: Desc :: counts[d] == old(counts)[d] + Held(old(tables)[t].files, d)
    {
      RetainSlots(t);
      CopyAccounted(old(counts), counts, tables, refs, hand, t);
      var files := tables[t].files;
      copy := |tables|;
      tables := tables + [Table(files, tables[t].cloexec, 1)];
    }

    /** fdtable_do_cloexec: exactly the marked slots are closed. */
    method DoCloexec(t: nat)
      requires Valid() && t < |tables|
      modifies this`counts, this`closed, this`tables
      ensures Valid() && |tables| == |old(tables)| && tables == old(tables)[t := tables[t]]
      ensures Swept(old(tables)[t], tables[t], |old(tables)[t].files|) && tables[t].cloexec == {}
    {
      var f := 0;
      while f < |tables[t].files|
        invariant Valid() && |tables| == |old(tables)| && tables == old(tables)[t := tables[t]]
        invariant f <= |tables[t].files| && Swept(old(tables)[t], tables[t], f)
      {
        SweepStep(old(tables)[t], tables[t], f);
        if f in tables[t].cloexec { var closing := TableClose(t, f); }
        f := f + 1;
      }
      assert forall g :: g in tables[t].cloexec ==> InUse(old(tables)[t], g);
    }

    /** fdtable_release: with its last user the table lets go of everything. */
    method ReleaseTable(t: nat)
      requires Valid() && t < |tables| && tables[t].users > 0
      modifies this`counts, this`closed, this`tables
      ensures Valid()
      ensures tables == old(tables)[t := if old(tables)[t].users > 1 then old(tables)[t].(users := old(tables)[t].users - 1) else Table([], {}, 0)]
    {
      UsersAccounted(counts, tables, refs, hand, t, tables[t].users - 1);
      tables := tables[t := tables[t].(users := tables[t].users - 1)];
      if tables[t].users == 0 {
        CloseAll(t);
        NoneAccounted(counts, tables, refs, hand, t);
        tables := tables[t := Table([], {}, 0)];
      }
    }

    /** The loop of fdtable_release. */
    method CloseAll(t: nat)
      requires Valid() && t < |tables|
      modifies this`counts, this`closed, this`tables
      ensures Valid() && |tables| == |old(tables)| && tables == old(tables)[t := tables[t]] && tables[t].users == old(tables)[t].users
      ensures forall g :: 0 <= g < |tables[t].files| ==> tables[t].files[g].None?
    {
      var f := 0;
      while f < |tables[t].files|
        invariant Valid() && |tables| == |old(tables)| && tables == old(tables)[t := tables[t]] && tables[t].users == old(tables)[t].users
        invariant f <= |tables[t].files| && forall g :: 0 <= g < f ==> tables[t].files[g].None?
      {
        var closing := TableClose(t, f);
        f := f + 1;
      }
    }
  }

  lemma {:induction false} NoRefs(n: nat, d: Desc)
    ensures AllRefs(seq(n, _ => []), d) == 0
  {
    if n > 0 {
      NoRefs(n - 1, d);
      assert seq<seq<Desc>>(n, _ => [])[..n - 1] == seq<seq<Desc>>(n - 1, _ => []);
    }
  }
}
