/**
 Coherence of one thread's software TLB (emu/tlb.c, emu/tlb.h) while other threads change the page
 table. A change is made of steps, as in the source: the table is altered page by page, and then `changes`
 is bumped once; `altered` are the pages altered since the last bump, by any thread. The miss loop is one
 step per access to shared state.
 */
module TlbCoherence {

  type Page = nat

  const TLB_SIZE: nat := 8192
  const GIVE_UP: nat := 8
  const UNSIGNED: nat := 0x1_0000_0000

  datatype Option<+T> = None | Some(value: T)

  /** A page table entry as the TLB sees it: the host address of the page, and whether a store may go
      straight to it (P_WRITE, neither copy-on-write nor holding compiled code). */
  datatype Pte = Pte(host: nat, writable: bool)

  /** `readTag` and `writeTag` stand for `page` and `page_if_writable`; None is TLB_PAGE_EMPTY.
      `verified` records history: the entry was stamped after a translation nothing raced with. */
  datatype Entry = Entry(readTag: Option<Page>, writeTag: Option<Page>, host: nat, gen: nat, verified: bool)

  datatype Access = Read | Store

  datatype Pc =
    | Idle
    | LoadGen(page: Page, access: Access, attempt: nat)
    | Translate(page: Page, access: Access, attempt: nat, gen: nat)
    | Check(page: Page, access: Access, attempt: nat, gen: nat, found: Option<Pte>)
    | Reload(page: Page, access: Access, found: Option<Pte>)
    | Stamp(page: Page, access: Access, gen: nat, found: Option<Pte>, verified: bool)

  datatype State = State(table: map<Page, Pte>, changes: nat, altered: set<Page>,
                         entries: seq<Entry>, memChanges: nat, pc: Pc)

  datatype Step =
    // any thread, this one's copy-on-write and unprotect included
    | Alter(page: Page, pte: Option<Pte>)
    | Bump
    | Fill(page: Page, entry: Pte)   // a page that was not mapped: the source does not bump for it
    // the miss loop
    | Miss(page: Page, access: Access)
    | TakeGen
    | DoTranslate
    | DoCheck
    | DoReload
    | DoStamp

  /** The low `bits` bits of the exclusive or. */
  function Xor(a: nat, b: nat, bits: nat): (r: nat)
    ensures r < Pow2(bits)
  {
    if bits == 0 then 0 else 2 * Xor(a / 2, b / 2, bits - 1) + (a + b) % 2
  }

  function Pow2(n: nat): nat { if n == 0 then 1 else 2 * Pow2(n - 1) }

  /** TLB_INDEX, of any address of the page. */
  function Index(page: Page): (i: nat)
    ensures i < TLB_SIZE
  {
    assert Pow2(13) == TLB_SIZE;
    Xor(page, page / TLB_SIZE, 13)
  }

  function Lookup(table: map<Page, Pte>, page: Page, access: Access): Option<Pte> {
    if page in table && (access == Read || table[page].writable) then Some(table[page]) else None
  }

  function Flushed(): seq<Entry> {
    seq(TLB_SIZE, _ => Entry(None, None, 0, 0, false))
  }

  predicate Shaped(s: State) { |s.entries| == TLB_SIZE }

  predicate Enabled(s: State, step: Step) {
    && Shaped(s)
    && match step
       case Alter(_, _) => true
       case Bump => true
       case Fill(p, _) => p !in s.table
       case Miss(_, _) => s.pc == Idle
       case TakeGen => s.pc.LoadGen?
       case DoTranslate => s.pc.Translate?
       case DoCheck => s.pc.Check?
       case DoReload => s.pc.Reload?
       case DoStamp => s.pc.Stamp?
  }

  function Next(s: State, step: Step): State
    requires Enabled(s, step)
  {
    match step
    case Alter(p, pte) =>
      s.(table := if pte.Some? then s.table[p := pte.value] else s.table - {p}, altered := s.altered + {p})
    case Bump => s.(changes := s.changes + 1, altered := {})
    case Fill(p, pte) => s.(table := s.table[p := pte])
    case Miss(p, a) => s.(pc := LoadGen(p, a, 0))
    case TakeGen =>
      var LoadGen(p, a, n) := s.pc;
      s.(entries := if s.changes != s.memChanges then Flushed() else s.entries,
         memChanges := s.changes % UNSIGNED, pc := Translate(p, a, n, s.changes))
    case DoTranslate =>
      var Translate(p, a, n, gen) := s.pc;
      s.(pc := Check(p, a, n, gen, Lookup(s.table, p, a)))
    case DoCheck =>
      var Check(p, a, n, gen, found) := s.pc;
      s.(pc := if s.changes == gen then Stamp(p, a, gen, found, true)
               else if n >= GIVE_UP then Reload(p, a, found)
               else LoadGen(p, a, n + 1))
    case DoReload =>
      var Reload(p, a, found) := s.pc;
      s.(memChanges := s.changes % UNSIGNED, pc := Stamp(p, a, s.changes, found, false))
    case DoStamp =>
      var Stamp(p, a, gen, found, verified) := s.pc;
      if found == None then s.(pc := Idle) else
        // after a read miss the table is asked once more whether the page takes stores
        var writable := a == Store || (p in s.table && s.table[p].writable);
        var entry := Entry(Some(p), if writable then Some(p) else None, found.value.host, gen, verified);
        s.(entries := s.entries[Index(p) := entry], pc := Idle)
  }

  // ---------------------------------------------------------------------------------------------
  // Coherence
  // ---------------------------------------------------------------------------------------------

  /** What __tlb_read_ptr and __tlb_write_ptr take for a hit. */
  predicate Hit(s: State, page: Page, access: Access)
    requires Shaped(s)
  {
    var e := s.entries[Index(page)];
    e.gen == s.changes && (if access == Read then e.readTag else e.writeTag) == Some(page)
  }

  /** An entry current by its stamp says what the table says of its page, unless that page was altered
      since the last bump. */
  predicate EntryOk(s: State, e: Entry) {
    && e.gen <= s.changes
    && (e.verified && e.gen == s.changes && !Altered(s, e) ==> Agrees(s.table, e))
    && (e.writeTag.Some? ==> e.readTag == e.writeTag)
  }

  predicate Altered(s: State, e: Entry) { e.readTag.Some? && e.readTag.value in s.altered }

  predicate Agrees(table: map<Page, Pte>, e: Entry) {
    && (e.readTag.Some? ==> e.readTag.value in table && table[e.readTag.value].host == e.host)
    && (e.writeTag.Some? ==> e.writeTag.value in table && table[e.writeTag.value] == Pte(e.host, true))
  }

  /** A translation made since `gen` was loaded is the table's, unless something changed. */
  predicate Fresh(s: State, page: Page, access: Access, gen: nat, found: Option<Pte>) {
    && gen <= s.changes
    && (gen == s.changes && page !in s.altered && found.Some? ==> found == Lookup(s.table, page, access))
  }

  ghost predicate Inv(s: State) {
    && Shaped(s) && (forall i :: 0 <= i < TLB_SIZE ==> EntryOk(s, s.entries[i]))
    && match s.pc
       case Translate(_, _, _, gen) => gen <= s.changes
       case Check(p, a, _, gen, found) => Fresh(s, p, a, gen, found)
       case Stamp(p, a, gen, found, verified) => gen <= s.changes && (verified ==> Fresh(s, p, a, gen, found))
       case _ => true
  }

  lemma SharedStepKeepsInv(s: State, step: Step)
    requires Inv(s) && Enabled(s, step) && (step.Alter? || step.Bump? || step.Fill?)
    ensures Inv(Next(s, step))
  {
    forall i | 0 <= i < TLB_SIZE ensures EntryOk(Next(s, step), s.entries[i]) {
      assert EntryOk(s, s.entries[i]);
    }
  }

  lemma StampKeepsInv(s: State)
    requires Inv(s) && Enabled(s, DoStamp)
    ensures Inv(Next(s, DoStamp))
  {
    var after := Next(s, DoStamp);
    forall i | 0 <= i < TLB_SIZE ensures EntryOk(after, after.entries[i]) {
      assert EntryOk(s, s.entries[i]);
    }
  }

  lemma StepKeepsInv(s: State, step: Step)
    requires Inv(s) && Enabled(s, step)
    ensures Inv(Next(s, step))
  {
    match step
    case Alter(_, _) => SharedStepKeepsInv(s, step);
    case Bump => SharedStepKeepsInv(s, step);
    case Fill(_, _) => SharedStepKeepsInv(s, step);
    case DoStamp => StampKeepsInv(s);
    case _ =>
      var after := Next(s, step);
      forall i | 0 <= i < TLB_SIZE ensures EntryOk(after, after.entries[i]) {
        assert EntryOk(s, s.entries[i]);
      }
  }

  predicate Start(s: State) {
    s.pc == Idle && s.entries == Flushed()
  }

  predicate RunEnabled(s: State, steps: seq<Step>)
    decreases |steps|
  {
    steps == [] || (Enabled(s, steps[0]) && RunEnabled(Next(s, steps[0]), steps[1..]))
  }

  function End(s: State, steps: seq<Step>): State
    requires RunEnabled(s, steps)
    decreases |steps|
  {
    if steps == [] then s else End(Next(s, steps[0]), steps[1..])
  }

  lemma {:induction false} RunKeepsInv(s: State, steps: seq<Step>)
    requires Inv(s) && RunEnabled(s, steps)
    ensures Inv(End(s, steps))
    decreases |steps|
  {
    if steps != [] {
      StepKeepsInv(s, steps[0]);
      RunKeepsInv(Next(s, steps[0]), steps[1..]);
    }
  }

  /** Main result: in every reachable state, a hit on an entry from the verified exit gives the host page, and
      the permission, that the page table gives now, unless this very page was altered and nothing was bumped
      since. */
  lemma HitsAgreeWithTheTable(s: State, steps: seq<Step>, page: Page, access: Access)
    requires Start(s) && RunEnabled(s, steps)
    ensures Shaped(End(s, steps))
    ensures var end := End(s, steps); var entry, now := end.entries[Index(page)], Lookup(end.table, page, access);
            Hit(end, page, access) && entry.verified && page !in end.altered ==> now.Some? && now.value.host == entry.host
  {
    RunKeepsInv(s, steps);
    var end := End(s, steps);
    assert EntryOk(end, end.entries[Index(page)]);
  }

  /** The exception is needed: until the bump, a hit on a page just altered gives the old host page. */
  lemma AlteredPageHitsStale(s: State, page: Page, access: Access, pte: Pte)
    requires Shaped(s) && Hit(s, page, access) && pte.host != s.entries[Index(page)].host
    ensures var after := Next(s, Alter(page, Some(pte)));
            && Shaped(after) && Hit(after, page, access) && page in after.altered
            && after.table[page].host != after.entries[Index(page)].host
  {}

  function AlteredPages(steps: seq<Step>): set<Page>
    requires forall i :: 0 <= i < |steps| ==> steps[i].Alter?
  {
    if steps == [] then {} else {steps[0].page} + AlteredPages(steps[1..])
  }

  /** Pages altered one after the other, as munmap, mprotect and fork do for a range. */
  lemma {:induction false} AlteredOnly(s: State, steps: seq<Step>)
    requires RunEnabled(s, steps) && forall i :: 0 <= i < |steps| ==> steps[i].Alter?
    ensures var end := End(s, steps);
            end.changes == s.changes && end.entries == s.entries && end.altered == s.altered + AlteredPages(steps)
    decreases |steps|
  {
    if steps != [] { AlteredOnly(Next(s, steps[0]), steps[1..]); }
  }

  /** One bump retires a whole range: nothing counts as altered, and no entry hits, however it was stamped. */
  lemma {:induction false} OneBumpRetiresTheRange(s: State, steps: seq<Step>, page: Page, access: Access)
    requires Inv(s) && RunEnabled(s, steps) && forall i :: 0 <= i < |steps| ==> steps[i].Alter?
    ensures var range := End(s, steps);
            && Enabled(range, Bump) && range.altered == s.altered + AlteredPages(steps)
            && var end := Next(range, Bump);
               Shaped(end) && end.altered == {} && end.changes == s.changes + 1 && !Hit(end, page, access)
  {
    AlteredOnly(s, steps);
    assert EntryOk(s, s.entries[Index(page)]);
  }

  // ---------------------------------------------------------------------------------------------
  // The give-up exit
  // ---------------------------------------------------------------------------------------------

  lemma {:induction false} RunAppend(s: State, a: seq<Step>, b: seq<Step>)
    requires RunEnabled(s, a) && RunEnabled(End(s, a), b)
    ensures RunEnabled(s, a + b) && End(s, a + b) == End(End(s, a), b)
    decreases |a|
  {
    if a == [] {
      assert a + b == b;
    } else {
      RunAppend(Next(s, a[0]), a[1..], b);
      assert (a + b)[1..] == a[1..] + b;
    }
  }

  lemma Then(s: State, steps: seq<Step>, step: Step) returns (longer: seq<Step>)
    requires RunEnabled(s, steps) && Enabled(End(s, steps), step)
    ensures RunEnabled(s, longer) && End(s, longer) == Next(End(s, steps), step)
  {
    longer := steps + [step];
    assert [step][1..] == [];
    RunAppend(s, steps, [step]);
  }

  /** A bump in every attempt keeps the loop going until it stops checking. */
  lemma {:induction false} BumpsReachGiveUp(s: State, page: Page, n: nat) returns (steps: seq<Step>)
    requires Shaped(s) && s.pc == Idle && s.altered == {} && n <= GIVE_UP
    ensures RunEnabled(s, steps) && Shaped(End(s, steps))
    ensures var end := End(s, steps); end.pc == LoadGen(page, Read, n) && end.table == s.table && end.altered == {}
  {
    if n == 0 {
      steps := Then(s, [], Miss(page, Read));
    } else {
      steps := BumpsReachGiveUp(s, page, n - 1);
      steps := Then(s, steps, TakeGen);
      steps := Then(s, steps, DoTranslate);
      steps := Then(s, steps, Bump);
      steps := Then(s, steps, DoCheck);
    }
  }

  /** Without the verified exit coherence is lost: the ninth attempt stamps whatever it translated with
      the generation after the change, and the entry goes on hitting with the old host page. */
  lemma GiveUpCanStampAStaleEntry(s: State, page: Page, pte: Pte) returns (steps: seq<Step>)
    requires Start(s) && s.altered == {} && page in s.table && pte.host != s.table[page].host
    ensures RunEnabled(s, steps) && Shaped(End(s, steps))
    ensures var end := End(s, steps);
            && Hit(end, page, Read) && end.altered == {} && page in end.table && end.table[page] == pte
            && end.entries[Index(page)].host != pte.host && !end.entries[Index(page)].verified
  {
    steps := BumpsReachGiveUp(s, page, GIVE_UP);
    steps := Then(s, steps, TakeGen);
    steps := Then(s, steps, DoTranslate);
    steps := Then(s, steps, Alter(page, Some(pte)));
    steps := Then(s, steps, Bump);
    steps := Then(s, steps, DoCheck);
    steps := Then(s, steps, DoReload);
    steps := Then(s, steps, DoStamp);
  }

  /** What can happen between the last translation of the loop and the stamp. */
  predicate BeforeStamp(step: Step) {
    step.Alter? || step.Bump? || step.Fill? || step.DoCheck? || step.DoReload?
  }

  /** The loop is past its last translation, which gave `found`. */
  predicate Leaving(s: State, page: Page, access: Access, found: Option<Pte>) {
    match s.pc
    case Check(p, a, n, _, f) => p == page && a == access && f == found && n >= GIVE_UP
    case Reload(p, a, f) => p == page && a == access && f == found
    case Stamp(p, a, _, f, _) => p == page && a == access && f == found
    case _ => false
  }

  lemma {:induction false} LeavingKeepsFound(s: State, steps: seq<Step>, page: Page, access: Access, found: Option<Pte>)
    requires RunEnabled(s, steps) && Leaving(s, page, access, found) && forall i :: 0 <= i < |steps| ==> BeforeStamp(steps[i])
    ensures Leaving(End(s, steps), page, access, found)
    decreases |steps|
  {
    if steps != [] {
      assert BeforeStamp(steps[0]);
      LeavingKeepsFound(Next(s, steps[0]), steps[1..], page, access, found);
    }
  }

  /** Exactly when the ninth attempt stamps a stale entry, whatever the others do meanwhile: when the page's
      translation at the stamp is not the one it made. */
  lemma {:induction false} GiveUpIsStaleExactly(s: State, steps: seq<Step>)
    requires s.pc.Translate? && s.pc.attempt >= GIVE_UP && Lookup(s.table, s.pc.page, s.pc.access).Some?
    requires RunEnabled(s, [DoTranslate] + steps) && forall i :: 0 <= i < |steps| ==> BeforeStamp(steps[i])
    requires End(s, [DoTranslate] + steps).pc.Stamp? && Shaped(End(s, [DoTranslate] + steps))
    ensures var page, access, end := s.pc.page, s.pc.access, Next(End(s, [DoTranslate] + steps), DoStamp);
            var was, now := Lookup(s.table, page, access), Lookup(end.table, page, access);
            && Shaped(end) && end.entries[Index(page)].readTag == Some(page)
            && (Agrees(end.table, end.entries[Index(page)]) <==> now.Some? && now.value.host == was.value.host)
  {
    var page, access := s.pc.page, s.pc.access;
    assert ([DoTranslate] + steps)[1..] == steps;
    LeavingKeepsFound(Next(s, DoTranslate), steps, page, access, Lookup(s.table, page, access));
    var before := End(s, [DoTranslate] + steps);
    assert Leaving(before, page, access, Lookup(s.table, page, access));
  }

  // ---------------------------------------------------------------------------------------------
  // Progress
  // ---------------------------------------------------------------------------------------------

  /** The table changes only under the thread's own copy-on-write or unprotect, which the first
      translation of a page does and a second finds done. */
  predicate OwnChangesOnly(s: State, step: Step) {
    (step.Alter? || step.Bump?) ==> s.pc.Translate? && s.pc.attempt == 0
  }

  predicate RunUndisturbed(s: State, steps: seq<Step>)
    decreases |steps|
  {
    steps == [] || (Enabled(s, steps[0]) && OwnChangesOnly(s, steps[0]) && RunUndisturbed(Next(s, steps[0]), steps[1..]))
  }

  /** At most two attempts, and only a verified translation is stamped. */
  predicate TwoAttempts(s: State) {
    match s.pc
    case Idle => true
    case LoadGen(_, _, n) => n <= 1
    case Translate(_, _, n, gen) => n <= 1 && (n == 1 ==> gen == s.changes)
    case Check(_, _, n, gen, _) => n <= 1 && (n == 1 ==> gen == s.changes)
    case Reload(_, _, _) => false
    case Stamp(_, _, gen, _, verified) => verified && gen == s.changes
  }

  lemma {:induction false} UndisturbedTakesTwoAttempts(s: State, steps: seq<Step>)
    requires TwoAttempts(s) && RunUndisturbed(s, steps)
    ensures RunEnabled(s, steps) && TwoAttempts(End(s, steps))
    decreases |steps|
  {
    if steps != [] {
      UndisturbedTakesTwoAttempts(Next(s, steps[0]), steps[1..]);
    }
  }
}
