/**
 The two calls that change a descriptor table without its lock (fs/fd.c): dup2 and dup3, and F_DUPFD. Any
 number of threads share one table; f_get, f_close and f_install are one step each, under the lock, and what
 the unlocked calls do to the table is one step per look or store.
 */
module DupRaces {
  import opened FdTables

  type Files = seq<Option<Desc>>

  datatype Pc =
    | Idle
    | Got(d: Desc, f: nat)                              // dup3, between f_get and fdtable_expand
    | Copied(d: Desc, f: nat, copy: Files, own: bool)   // in fdtable_resize, the old slots copied
    | Roomy(d: Desc, f: nat)                            // dup3, the table large enough
    | Retained(d: Desc, f: nat)                         // dup3, before f_close
    | Holding(d: Desc, start: nat)                      // F_DUPFD, before the scan
    | Ready(d: Desc, f: nat)                            // before the store
    | Leaving(d: Desc)                                  // before the drain

  /** `limit` is RLIMIT_NOFILE. */
  datatype State = State(files: Files, counts: multiset<Desc>, limit: nat, pcs: seq<Pc>)

  datatype Step =
    | Open(t: nat, d: Desc)            // a new description through f_install
    | Close(t: nat, f: nat)
    | Get(t: nat, f: nat, newF: nat)   // dup3(f, newF)
    | Expand(t: nat)
    | Publish(t: nat)
    | Retain(t: nat)
    | CloseNew(t: nat)
    | GetMin(t: nat, f: nat, start: nat)  // F_DUPFD from start on, with its reference taken
    | Scan(t: nat)
    | Store(t: nat)
    | Drain(t: nat)

  /** The references a thread has: its list's, and between retain and store its own. */
  function Refs(pc: Pc, d: Desc): nat {
    match pc
    case Idle => 0
    case Copied(x, _, _, own) => One(x == d) + One(own && x == d)
    case Retained(x, _) => 2 * One(x == d)
    case Holding(x, _) => 2 * One(x == d)
    case Ready(x, _) => 2 * One(x == d)
    case _ => One(pc.d == d)
  }

  function AllPcs(pcs: seq<Pc>, d: Desc): nat {
    if pcs == [] then 0 else AllPcs(pcs[..|pcs| - 1], d) + Refs(pcs[|pcs| - 1], d)
  }

  /** Every reference is in a slot or with a thread. */
  ghost predicate Balanced(s: State) {
    forall d: Desc :: s.counts[d] == Held(s.files, d) + AllPcs(s.pcs, d)
  }

  function Room(files: Files, n: nat): Files {
    if n <= |files| then files else files + seq(n - |files|, _ => None)
  }

  /** The scan of f_install_start. */
  function ScanFrom(files: Files, f: nat, size: nat): nat
    requires size <= |files|
    decreases size - f
  {
    if f < size && files[f].Some? then ScanFrom(files, f + 1, size) else f
  }

  function Size(s: State): nat { if s.limit > |s.files| then |s.files| else s.limit }

  function Raised(counts: multiset<Desc>, d: Desc): multiset<Desc> { counts[d := counts[d] + 1] }

  function Dropped(counts: multiset<Desc>, d: Desc): multiset<Desc> {
    if counts[d] > 0 then counts[d := counts[d] - 1] else counts
  }

  predicate Enabled(s: State, step: Step) {
    step.t < |s.pcs| &&
    var pc := s.pcs[step.t];
    match step
    case Open(_, d) => pc == Idle && s.counts[d] == 0
    case Close(_, _) => pc == Idle
    case Get(_, f, _) => pc == Idle && InRange(s.files, f)
    case Expand(_) => pc.Got?
    case Publish(_) => pc.Copied?
    case Retain(_) => pc.Roomy?
    case CloseNew(_) => pc.Retained?
    case GetMin(_, f, _) => pc == Idle && InRange(s.files, f)
    case Scan(_) => pc.Holding?
    case Store(_) => pc.Ready? && pc.f < |s.files|
    case Drain(_) => pc.Leaving?
  }

  predicate InRange(files: Files, f: nat) { f < |files| && files[f].Some? }

  function At(s: State, t: nat, pc: Pc): State
    requires t < |s.pcs|
  {
    s.(pcs := s.pcs[t := pc])
  }

  /** fdtable_close */
  function Closed(s: State, f: nat): State {
    if InRange(s.files, f) then s.(files := s.files[f := None], counts := Dropped(s.counts, s.files[f].value)) else s
  }

  function Next(s: State, step: Step): State
    requires Enabled(s, step)
  {
    var t, pc := step.t, s.pcs[step.t];
    match step
    case Open(_, d) =>
      var f := ScanFrom(s.files, 0, Size(s));
      if f < s.limit then s.(files := Room(s.files, f + 1)[f := Some(d)], counts := Raised(s.counts, d)) else s
    case Close(_, f) => Closed(s, f)
    case Get(_, f, newF) => At(s, t, Got(s.files[f].value, newF)).(counts := Raised(s.counts, s.files[f].value))
    case Expand(_) =>
      if pc.f >= s.limit then At(s, t, Leaving(pc.d))
      else if pc.f < |s.files| then At(s, t, Roomy(pc.d, pc.f))
      else At(s, t, Copied(pc.d, pc.f, s.files, false))
    case Publish(_) =>
      At(s, t, if pc.own then Ready(pc.d, pc.f) else Roomy(pc.d, pc.f)).(files := Room(pc.copy, pc.f + 1))
    case Retain(_) => At(s, t, Retained(pc.d, pc.f)).(counts := Raised(s.counts, pc.d))
    case CloseNew(_) => At(Closed(s, pc.f), t, Ready(pc.d, pc.f))
    case GetMin(_, f, start) =>
      At(s, t, Holding(s.files[f].value, start)).(counts := Raised(Raised(s.counts, s.files[f].value), s.files[f].value))
    case Scan(_) =>
      var f := ScanFrom(s.files, pc.start, Size(s));
      if f < Size(s) then At(s, t, Ready(pc.d, f))
      else if f >= s.limit then At(s, t, Leaving(pc.d)).(counts := Dropped(s.counts, pc.d))
      else At(s, t, Copied(pc.d, f, s.files, true))
    case Store(_) => At(s, t, Leaving(pc.d)).(files := s.files[pc.f := Some(pc.d)])
    case Drain(_) => At(s, t, Idle).(counts := Dropped(s.counts, pc.d))
  }

  // ---------------------------------------------------------------------------------------------
  // Which steps keep the balance
  // ---------------------------------------------------------------------------------------------

  /** The store goes into a slot another thread has filled, or the table put in place of the old one holds
      something else than the old one does now. */
  ghost predicate Loses(s: State, step: Step)
    requires Enabled(s, step)
  {
    match step
    case Store(t) => s.files[s.pcs[t].f].Some?
    case Publish(t) => !SameReferences(s.files, s.pcs[t].copy)
    case _ => false
  }

  ghost predicate SameReferences(a: Files, b: Files) {
    forall d: Desc :: Held(a, d) == Held(b, d)
  }

  lemma {:induction false} PcsUpdate(pcs: seq<Pc>, t: nat, pc: Pc, d: Desc)
    requires t < |pcs|
    ensures AllPcs(pcs[t := pc], d) + Refs(pcs[t], d) == AllPcs(pcs, d) + Refs(pc, d)
    decreases |pcs|
  {
    var last := |pcs| - 1;
    if t < last {
      PcsUpdate(pcs[..last], t, pc, d);
      assert pcs[t := pc][..last] == pcs[..last][t := pc];
    } else {
      assert pcs[t := pc][..last] == pcs[..last];
    }
  }

  lemma {:induction false} HeldRoom(files: Files, n: nat, d: Desc)
    ensures Held(Room(files, n), d) == Held(files, d)
  {
    if n > |files| { HeldGrow(files, n - |files|, d); }
  }

  lemma {:induction false} ScanStops(files: Files, f: nat, size: nat)
    requires size <= |files|
    ensures var g := ScanFrom(files, f, size);
            g >= f && (g < size ==> files[g].None?) && (f <= size ==> g <= size) && (g < size ==> g < |files|)
    decreases size - f
  {
    if f < size && files[f].Some? { ScanStops(files, f + 1, size); }
  }

  /** Only the thread's place changed, and the references it has not. */
  lemma {:induction false} MovedBalances(s: State, t: nat, pc: Pc)
    requires Balanced(s) && t < |s.pcs| && forall d: Desc :: Refs(pc, d) == Refs(s.pcs[t], d)
    ensures Balanced(At(s, t, pc))
  {
    forall d: Desc ensures AllPcs(s.pcs[t := pc], d) == AllPcs(s.pcs, d) { PcsUpdate(s.pcs, t, pc, d); }
  }

  /** The thread has one reference more to x, or one less, and the count says so. */
  lemma {:induction false} CountedBalances(s: State, t: nat, pc: Pc, x: Desc, up: bool)
    requires Balanced(s) && t < |s.pcs|
    requires forall d: Desc :: if up then Refs(pc, d) == Refs(s.pcs[t], d) + One(d == x) else Refs(pc, d) + One(d == x) == Refs(s.pcs[t], d)
    ensures Balanced(At(s, t, pc).(counts := if up then Raised(s.counts, x) else Dropped(s.counts, x)))
  {
    forall d: Desc ensures AllPcs(s.pcs[t := pc], d) + Refs(s.pcs[t], d) == AllPcs(s.pcs, d) + Refs(pc, d) { PcsUpdate(s.pcs, t, pc, d); }
  }

  lemma {:induction false} ClosedBalances(s: State, f: nat)
    requires Balanced(s)
    ensures Balanced(Closed(s, f))
  {
    if InRange(s.files, f) {
      forall d: Desc ensures Held(s.files[f := None], d) + One(s.files[f] == Some(d)) == Held(s.files, d) { HeldUpdate(s.files, f, None, d); }
    }
  }

  lemma {:induction false} OpenBalances(s: State, t: nat, d: Desc)
    requires Balanced(s) && Enabled(s, Open(t, d))
    ensures Balanced(Next(s, Open(t, d)))
  {
    var f := ScanFrom(s.files, 0, Size(s));
    ScanStops(s.files, 0, Size(s));
    if f < s.limit { PlacedInRoom(s.files, f, d); }
  }

  /** A free slot of a table made large enough. */
  lemma {:induction false} PlacedInRoom(files: Files, f: nat, d: Desc)
    requires f < |files| ==> files[f].None?
    ensures forall x: Desc :: Held(Room(files, f + 1)[f := Some(d)], x) == Held(files, x) + One(x == d)
  {
    var room := Room(files, f + 1);
    assert room[f].None?;
    forall x: Desc ensures Held(room[f := Some(d)], x) == Held(files, x) + One(x == d) {
      HeldRoom(files, f + 1, x);
      HeldUpdate(room, f, Some(d), x);
    }
  }

  /** The thread's own reference goes into the slot; what was there is forgotten. */
  lemma {:induction false} StoreBalance(s: State, t: nat)
    requires Balanced(s) && Enabled(s, Store(t))
    ensures Balanced(Next(s, Store(t))) <==> s.files[s.pcs[t].f].None?
  {
    var pc, slot, after := s.pcs[t], s.files[s.pcs[t].f], Next(s, Store(t));
    forall d: Desc ensures Held(after.files, d) + AllPcs(after.pcs, d) + One(slot == Some(d)) == s.counts[d] {
      HeldUpdate(s.files, pc.f, Some(pc.d), d);
      PcsUpdate(s.pcs, t, Leaving(pc.d), d);
    }
    if slot.Some? { assert after.counts[slot.value] != Held(after.files, slot.value) + AllPcs(after.pcs, slot.value); }
  }

  lemma {:induction false} PublishBalance(s: State, t: nat)
    requires Balanced(s) && Enabled(s, Publish(t))
    ensures Balanced(Next(s, Publish(t))) <==> SameReferences(s.files, s.pcs[t].copy)
  {
    var pc, after := s.pcs[t], Next(s, Publish(t));
    forall d: Desc ensures AllPcs(after.pcs, d) == AllPcs(s.pcs, d) && Held(after.files, d) == Held(pc.copy, d) {
      PcsUpdate(s.pcs, t, after.pcs[t], d);
      HeldRoom(pc.copy, pc.f + 1, d);
    }
    assert forall d: Desc :: after.counts[d] == s.counts[d];
    if SameReferences(s.files, pc.copy) {
      forall d: Desc ensures after.counts[d] == Held(after.files, d) + AllPcs(after.pcs, d) {
        assert s.counts[d] == Held(s.files, d) + AllPcs(s.pcs, d);
      }
    } else {
      var d: Desc :| Held(s.files, d) != Held(pc.copy, d);
      assert after.counts[d] != Held(after.files, d) + AllPcs(after.pcs, d);
    }
  }

  lemma {:induction false} CloseNewBalances(s: State, t: nat)
    requires Balanced(s) && Enabled(s, CloseNew(t))
    ensures Balanced(Next(s, CloseNew(t)))
  {
    var pc := s.pcs[t];
    ClosedBalances(s, pc.f);
    MovedBalances(Closed(s, pc.f), t, Ready(pc.d, pc.f));
  }

  lemma {:induction false} GetMinBalances(s: State, t: nat, f: nat, start: nat)
    requires Balanced(s) && Enabled(s, GetMin(t, f, start))
    ensures Balanced(Next(s, GetMin(t, f, start)))
  {
    var d := s.files[f].value;
    var once := At(s, t, Got(d, start)).(counts := Raised(s.counts, d));
    CountedBalances(s, t, Got(d, start), d, true);
    CountedBalances(once, t, Holding(d, start), d, true);
    assert once.pcs[t := Holding(d, start)] == s.pcs[t := Holding(d, start)];
  }

  /** Exactly two kinds of step lose a reference, or keep one nobody has. */
  lemma {:induction false} BalanceExactly(s: State, step: Step)
    requires Balanced(s) && Enabled(s, step)
    ensures Balanced(Next(s, step)) <==> !Loses(s, step)
  {
    var t, pc := step.t, s.pcs[step.t];
    match step
    case Open(_, d) => OpenBalances(s, t, d);
    case Close(_, f) => ClosedBalances(s, f);
    case Get(_, f, newF) => CountedBalances(s, t, Got(s.files[f].value, newF), s.files[f].value, true);
    case Expand(_) => MovedBalances(s, t, Next(s, step).pcs[t]);
    case Publish(_) => PublishBalance(s, t);
    case Retain(_) => CountedBalances(s, t, Retained(pc.d, pc.f), pc.d, true);
    case CloseNew(_) => CloseNewBalances(s, t);
    case GetMin(_, f, start) => GetMinBalances(s, t, f, start);
    case Scan(_) => ScanBalances(s, t);
    case Store(_) => StoreBalance(s, t);
    case Drain(_) => CountedBalances(s, t, Idle, pc.d, false);
  }

  lemma {:induction false} ScanBalances(s: State, t: nat)
    requires Balanced(s) && Enabled(s, Scan(t))
    ensures Balanced(Next(s, Scan(t)))
  {
    var pc, f := s.pcs[t], ScanFrom(s.files, s.pcs[t].start, Size(s));
    if f < Size(s) {
      MovedBalances(s, t, Ready(pc.d, f));
    } else if f >= s.limit {
      CountedBalances(s, t, Leaving(pc.d), pc.d, false);
    } else {
      MovedBalances(s, t, Copied(pc.d, f, s.files, true));
    }
  }

  // ---------------------------------------------------------------------------------------------
  // Runs
  // ---------------------------------------------------------------------------------------------

  predicate RunEnabled(s: State, steps: seq<Step>)
    decreases |steps|
  {
    steps == [] || (Enabled(s, steps[0]) && RunEnabled(Next(s, steps[0]), steps[1..]))
  }

  function End(s: State, steps: seq<Step>): State
    requires RunEnabled(s, steps)
    decreases |steps|
  {
    if steps == [] then s else End(Next(s, steps[0]), steps[1..])
  }

  /** What the only thread of a table knows. */
  predicate Undisturbed(s: State) {
    && |s.pcs| == 1
    && match s.pcs[0]
       case Copied(_, f, copy, _) => copy == s.files && |s.files| <= f
       case Roomy(_, f) => f < |s.files|
       case Retained(_, f) => f < |s.files|
       case Ready(_, f) => f < |s.files| && s.files[f].None?
       case _ => true
  }

  lemma {:induction false} AloneLosesNothing(s: State, step: Step)
    requires Undisturbed(s) && Enabled(s, step)
    ensures !Loses(s, step) && Undisturbed(Next(s, step))
  {
    if step.Scan? { ScanStops(s.files, s.pcs[0].start, Size(s)); }
  }

  lemma {:induction false} AloneStaysBalanced(s: State, steps: seq<Step>)
    requires Undisturbed(s) && Balanced(s) && RunEnabled(s, steps)
    ensures Balanced(End(s, steps))
    decreases |steps|
  {
    if steps != [] {
      AloneLosesNothing(s, steps[0]);
      BalanceExactly(s, steps[0]);
      AloneStaysBalanced(Next(s, steps[0]), steps[1..]);
    }
  }

  /** With no other step in between, dup3 makes the descriptor another reference to the description and
      drops what was there, whoever shares the table. */
  lemma {:induction false} UninterruptedDup3(s: State, t: nat, f: nat, newF: nat) returns (steps: seq<Step>)
    requires Balanced(s) && t < |s.pcs| && s.pcs[t] == Idle && InRange(s.files, f) && newF < s.limit
    ensures RunEnabled(s, steps)
    ensures var end := End(s, steps);
            && end.files == Room(s.files, newF + 1)[newF := s.files[f]] && end.pcs == s.pcs && end.limit == s.limit
            && forall x: Desc :: end.counts[x] + One(InRange(s.files, newF) && s.files[newF] == Some(x)) == s.counts[x] + One(Some(x) == s.files[f])
  {
    var d := s.files[f].value;
    var room := RoomForNew(s, t, f, newF);
    steps := Then(s, room, Retain(t));
    steps := Then(s, steps, CloseNew(t));
    steps := Then(s, steps, Store(t));
    steps := Then(s, steps, Drain(t));
    if InRange(s.files, newF) { HeldContains(s.files, newF); }
    RedirectedCounts(s, d, newF);
  }

  lemma {:induction false} RoomForNew(s: State, t: nat, f: nat, newF: nat) returns (steps: seq<Step>)
    requires t < |s.pcs| && s.pcs[t] == Idle && InRange(s.files, f) && newF < s.limit
    ensures RunEnabled(s, steps)
    ensures End(s, steps) == State(Room(s.files, newF + 1), Raised(s.counts, s.files[f].value), s.limit, s.pcs[t := Roomy(s.files[f].value, newF)])
  {
    var d := s.files[f].value;
    steps := Then(s, [], Get(t, f, newF));
    assert End(s, steps) == At(s, t, Got(d, newF)).(counts := Raised(s.counts, d));
    steps := Then(s, steps, Expand(t));
    if newF >= |s.files| {
      assert End(s, steps) == At(s, t, Copied(d, newF, s.files, false)).(counts := Raised(s.counts, d));
      steps := Then(s, steps, Publish(t));
    }
  }

  lemma {:induction false} RedirectedCounts(s: State, d: Desc, f: nat)
    requires InRange(s.files, f) ==> s.counts[s.files[f].value] > 0
    ensures forall x: Desc :: Redirected(s, d, f)[x] + One(InRange(s.files, f) && s.files[f] == Some(x)) == s.counts[x] + One(x == d)
  {
    var room := Room(s.files, f + 1);
    assert InRange(room, f) <==> InRange(s.files, f);
    var held := Raised(Raised(s.counts, d), d);
    assert held[d] == s.counts[d] + 2;
  }

  /** The counts after d has gone into slot f. */
  function Redirected(s: State, d: Desc, f: nat): multiset<Desc> {
    Dropped(Closed(State(Room(s.files, f + 1), Raised(Raised(s.counts, d), d), s.limit, s.pcs), f).counts, d)
  }

  /** One description open, on descriptor 0. */
  predicate Start(s: State) {
    s.files == [Some(0)] && s.counts == multiset{0} && s.limit > 0 && |s.pcs| > 0 && forall t :: 0 <= t < |s.pcs| ==> s.pcs[t] == Idle
  }

  lemma {:induction false} StartBalanced(s: State)
    requires Start(s)
    ensures Balanced(s)
  {
    forall d: Desc ensures s.counts[d] == Held(s.files, d) + AllPcs(s.pcs, d) {
      NoPcs(s.pcs, d);
      assert s.files[..0] == [];
    }
  }

  lemma {:induction false} NoPcs(pcs: seq<Pc>, d: Desc)
    requires forall t :: 0 <= t < |pcs| ==> pcs[t] == Idle
    ensures AllPcs(pcs, d) == 0
    decreases |pcs|
  {
    if pcs != [] { NoPcs(pcs[..|pcs| - 1], d); }
  }

  lemma {:induction false} Then(s: State, steps: seq<Step>, step: Step) returns (longer: seq<Step>)
    requires RunEnabled(s, steps) && Enabled(End(s, steps), step)
    ensures RunEnabled(s, longer) && End(s, longer) == Next(End(s, steps), step)
    decreases |steps|
  {
    longer := steps + [step];
    if steps == [] {
      assert longer[1..] == [];
    } else {
      var rest := Then(Next(s, steps[0]), steps[1..], step);
      longer := [steps[0]] + rest;
      assert longer[1..] == rest;
    }
  }

  /** A descriptor opened between the close and the store of a dup2 onto it is overwritten: every thread is
      done, nothing refers to description 1, and its count is still one. */
  lemma {:induction false} OverwrittenLeaks(s: State) returns (steps: seq<Step>)
    requires Start(s) && |s.pcs| > 1
    ensures RunEnabled(s, steps)
    ensures var end := End(s, steps);
            && end.files == [Some(0)] && end.counts == multiset{0, 1} && end.pcs == s.pcs && Held(end.files, 1) == 0
  {
    var closing := ClosedBeforeStore(s);
    var closed := End(s, closing);
    steps := Then(s, closing, Open(1, 1));
    assert End(s, steps) == State([Some(1)], multiset{0, 0, 1}, s.limit, closed.pcs);
    steps := Then(s, steps, Store(0));
    assert End(s, steps) == State([Some(0)], multiset{0, 0, 1}, s.limit, s.pcs[0 := Leaving(0)]);
    steps := Then(s, steps, Drain(0));
    var end := End(s, steps);
    assert end.pcs == s.pcs && end.files[..0] == [];
  }

  lemma {:induction false} ClosedBeforeStore(s: State) returns (steps: seq<Step>)
    requires Start(s)
    ensures RunEnabled(s, steps) && End(s, steps) == State([None], multiset{0, 0}, s.limit, s.pcs[0 := Ready(0, 0)])
  {
    steps := RoomBeforeClose(s);
    steps := Then(s, steps, Retain(0));
    assert End(s, steps) == State([Some(0)], multiset{0, 0, 0}, s.limit, s.pcs[0 := Retained(0, 0)]);
    steps := Then(s, steps, CloseNew(0));
  }

  lemma {:induction false} RoomBeforeClose(s: State) returns (steps: seq<Step>)
    requires Start(s)
    ensures RunEnabled(s, steps) && End(s, steps) == State([Some(0)], multiset{0, 0}, s.limit, s.pcs[0 := Roomy(0, 0)])
  {
    steps := Then(s, [], Get(0, 0, 0));
    assert End(s, steps) == State([Some(0)], multiset{0, 0}, s.limit, s.pcs[0 := Got(0, 0)]);
    steps := Then(s, steps, Expand(0));
  }

  /** Main result: conservation survives the unlocked calls in every run exactly when the table has one
      thread. */
  lemma {:induction false} ConservedExactlyAlone(s: State)
    requires Start(s)
    ensures (forall steps :: RunEnabled(s, steps) ==> Balanced(End(s, steps))) <==> |s.pcs| == 1
  {
    StartBalanced(s);
    if |s.pcs| == 1 {
      forall steps | RunEnabled(s, steps) ensures Balanced(End(s, steps)) { AloneStaysBalanced(s, steps); }
    } else {
      var steps := OverwrittenLeaks(s);
      var end := End(s, steps);
      NoPcs(end.pcs, 1);
      assert end.counts[1] != Held(end.files, 1) + AllPcs(end.pcs, 1);
      assert RunEnabled(s, steps) && !Balanced(End(s, steps));
    }
  }
}
