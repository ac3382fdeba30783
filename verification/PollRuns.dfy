/**
 Delivery from a poll set over whole runs: what a oneshot registration and an edge-triggered one may
 report, whatever the order of additions, changes, removals, wakeups, host events and scans.
 */
module PollRuns {
  import opened PollSets

  datatype Op =
    | Add(key: Key, types: set<Bit>, info: nat)
    | Mod(key: Key, types: set<Bit>, info: nat)
    | Del(key: Key)
    | Cleanup(fd: Fd)
    | Wakeup(fd: Fd, events: set<Bit>)
    | HostEvent(fd: Fd, events: set<Bit>)
    | Wait(ready: map<Key, set<Bit>>, room: nat)

  /** What happened, in order. `spared` is what arming leaves spent: nothing when the registration is added,
      the bits it still asks for when it is modified. `heard` are the registrations that took the edge.
      `oneshot` and `edge` say what the registration was when it was reported. */
  datatype Happening =
    | Armed(key: Key, spared: set<Bit>)
    | Edged(heard: set<Key>, events: set<Bit>)
    | Reported(key: Key, types: set<Bit>, oneshot: bool, edge: bool)

  function Answer(ready: map<Key, set<Bit>>): Key -> set<Bit> {
    key => if key in ready then ready[key] else {}
  }

  /** The reports of a scan, one registration at a time. */
  function Reports(regs: seq<Reg>, ready: Key -> set<Bit>, room: nat): seq<Happening> {
    if regs == [] then [] else
      var types := Pending(regs[0], ready(regs[0].key));
      if types == {} || room == 0 then Reports(regs[1..], ready, room)
      else [Report(regs[0], types)] + Reports(regs[1..], ready, room - 1)
  }

  function Report(r: Reg, types: set<Bit>): Happening {
    Reported(r.key, types, ONESHOT in r.types, EDGETRIGGERED in r.types)
  }

  /** The reports are the events the scan hands to the guest, in the same order. */
  lemma {:induction false} ReportsAreTheEvents(regs: seq<Reg>, ready: Key -> set<Bit>, room: nat)
    ensures var events, reports := Scan(regs, ready, room).1, Reports(regs, ready, room);
            |events| == |reports| && forall i :: 0 <= i < |events| ==>
              reports[i].Reported? && reports[i].key == events[i].key && reports[i].types == events[i].types
  {
    if regs != [] {
      var types := Pending(regs[0], ready(regs[0].key));
      ReportsAreTheEvents(regs[1..], ready, if types == {} || room == 0 then room else room - 1);
    }
  }

  function Step(regs: seq<Reg>, op: Op): seq<Reg> {
    match op
    case Add(key, types, info) => if Has(regs, key) then regs else [Reg(key, types, info, {}, false)] + regs
    case Mod(key, types, info) => Change(regs, key, types, info)
    case Del(key) => Remove(regs, key)
    case Cleanup(fd) => Cleaned(regs, fd)
    case Wakeup(fd, events) => Woken(regs, fd, events)
    case HostEvent(fd, events) => Signalled(regs, fd, events)
    case Wait(ready, room) => Scan(regs, Answer(ready), room).0
  }

  function Happened(regs: seq<Reg>, op: Op): seq<Happening> {
    match op
    case Add(key, types, info) => if Has(regs, key) then [] else [Armed(key, {})]
    case Mod(key, types, info) => if Has(regs, key) then [Armed(key, types)] else []
    case Del(_) => []
    case Cleanup(_) => []
    case Wakeup(fd, events) => [Edged(Hearers(regs, fd, true), events)]
    case HostEvent(fd, events) => [Edged(Hearers(regs, fd, false), events)]
    case Wait(ready, room) => Reports(regs, Answer(ready), room)
  }

  function End(regs: seq<Reg>, ops: seq<Op>): seq<Reg>
    decreases |ops|
  {
    if ops == [] then regs else End(Step(regs, ops[0]), ops[1..])
  }

  function Log(regs: seq<Reg>, ops: seq<Op>): seq<Happening>
    decreases |ops|
  {
    if ops == [] then [] else Happened(regs, ops[0]) + Log(Step(regs, ops[0]), ops[1..])
  }

  // ---------------------------------------------------------------------------------------------
  // What the log allows next
  // ---------------------------------------------------------------------------------------------

  predicate Arms(h: Happening, key: Key) { h.Armed? && h.key == key }

  /** The registration was reported as a oneshot and has not been armed since. */
  predicate Disarmed(log: seq<Happening>, key: Key) {
    log != [] &&
      var last, rest := log[|log| - 1], log[..|log| - 1];
      if last.Reported? && last.key == key && last.oneshot then true
      else if Arms(last, key) then false
      else Disarmed(rest, key)
  }

  /** The bit was reported as an edge and nothing has renewed it since. */
  predicate Spent(log: seq<Happening>, key: Key, b: Bit) {
    log != [] && SpentAfter(log[|log| - 1], key, b, Spent(log[..|log| - 1], key, b))
  }

  predicate SpentAfter(h: Happening, key: Key, b: Bit, before: bool) {
    if h.Reported? && h.key == key && h.edge && b in h.types then true
    else !Renews(h, key, b) && before
  }

  /** What lets an edge-triggered bit be reported again. */
  predicate Renews(h: Happening, key: Key, b: Bit) {
    (Arms(h, key) && b !in h.spared) || (h.Edged? && key in h.heard && b in h.events)
  }

  /** The registration remembers exactly what the log says of it. */
  ghost predicate Remembers(log: seq<Happening>, r: Reg) {
    (Disarmed(log, r.key) <==> r.fired) && forall b :: Spent(log, r.key, b) <==> b in r.triggered
  }

  ghost predicate Inv(log: seq<Happening>, regs: seq<Reg>) {
    Unique(regs) && forall i :: 0 <= i < |regs| ==> Remembers(log, regs[i])
  }

  /** What a report must satisfy when it is made. */
  ghost predicate Due(log: seq<Happening>, h: Happening) {
    h.Reported? ==> !Disarmed(log, h.key) && (h.edge ==> forall b :: b in h.types ==> !Spent(log, h.key, b))
  }

  lemma OneMore(log: seq<Happening>, h: Happening, key: Key)
    ensures (log + [h])[..|log|] == log
    ensures Disarmed(log + [h], key) ==
            if h.Reported? && h.key == key && h.oneshot then true else if Arms(h, key) then false else Disarmed(log, key)
    ensures forall b :: Spent(log + [h], key, b) == SpentAfter(h, key, b, Spent(log, key, b))
  {
    assert (log + [h])[..|log|] == log;
  }

  /** Reports of other registrations say nothing of this one. */
  lemma {:induction false} OthersReports(log: seq<Happening>, reports: seq<Happening>, key: Key)
    requires forall h :: h in reports ==> h.Reported? && h.key != key
    ensures Disarmed(log + reports, key) == Disarmed(log, key)
    ensures forall b :: Spent(log + reports, key, b) == Spent(log, key, b)
    decreases |reports|
  {
    if reports == [] {
      assert log + reports == log;
    } else {
      var head, last := reports[..|reports| - 1], reports[|reports| - 1];
      OthersReports(log, head, key);
      OneMore(log + head, last, key);
      assert log + reports == log + head + [last];
    }
  }

  lemma {:induction false} ReportKeys(regs: seq<Reg>, ready: Key -> set<Bit>, room: nat)
    ensures forall h :: h in Reports(regs, ready, room) ==> h.Reported? && Has(regs, h.key)
  {
    if regs != [] {
      var types := Pending(regs[0], ready(regs[0].key));
      var left := if types != {} && room > 0 then room - 1 else room;
      ReportKeys(regs[1..], ready, left);
      forall h | h in Reports(regs, ready, room) ensures h.Reported? && Has(regs, h.key) {
        if h in Reports(regs[1..], ready, left) {
          var j :| 0 <= j < |regs[1..]| && regs[1..][j].key == h.key;
          assert regs[j + 1].key == h.key;
        } else {
          assert regs[0].key == h.key;
        }
      }
    }
  }

  /** Reporting one registration keeps what the others remember, and makes it remember its own report. */
  lemma ReportKeeps(log: seq<Happening>, r: Reg, ready: set<Bit>)
    requires Remembers(log, r) && Pending(r, ready) != {}
    ensures Due(log, Report(r, Pending(r, ready)))
    ensures Remembers(log + [Report(r, Pending(r, ready))], Delivered(r, Pending(r, ready)))
  {
    OneMore(log, Report(r, Pending(r, ready)), r.key);
  }

  ghost predicate DueAfter(log: seq<Happening>, more: seq<Happening>) {
    forall j {:trigger more[j]} :: 0 <= j < |more| ==> Due(log + more[..j], more[j])
  }

  lemma DueOneMore(log: seq<Happening>, h: Happening, more: seq<Happening>)
    requires Due(log, h) && DueAfter(log + [h], more)
    ensures DueAfter(log, [h] + more)
  {
    forall j | 0 <= j < |[h] + more| ensures Due(log + ([h] + more)[..j], ([h] + more)[j]) {
      if j == 0 {
        assert log + ([h] + more)[..0] == log;
      } else {
        assert log + ([h] + more)[..j] == log + [h] + more[..j - 1];
        assert ([h] + more)[j] == more[j - 1];
      }
    }
  }

  lemma {:induction false} TailInv(log: seq<Happening>, regs: seq<Reg>)
    requires Inv(log, regs) && regs != []
    ensures Remembers(log, regs[0]) && Inv(log, regs[1..])
    ensures forall i :: 0 <= i < |regs[1..]| ==> regs[1..][i].key != regs[0].key
  {
    forall i | 0 <= i < |regs[1..]| ensures Remembers(log, regs[1..][i]) { assert regs[1..][i] == regs[i + 1]; }
  }

  /** The list scanned so far, put back in front. */
  lemma {:induction false} ConsInv(log: seq<Happening>, r: Reg, rest: seq<Reg>)
    requires Remembers(log, r) && Inv(log, rest) && forall i :: 0 <= i < |rest| ==> rest[i].key != r.key
    ensures Inv(log, [r] + rest)
  {
    assert ([r] + rest)[1..] == rest;
  }

  /** The head of the scan, reported. */
  lemma {:induction false} ReportHead(log: seq<Happening>, regs: seq<Reg>, ready: set<Bit>)
    requires Inv(log, regs) && regs != [] && Pending(regs[0], ready) != {}
    ensures var h := Report(regs[0], Pending(regs[0], ready));
            && Due(log, h) && Inv(log + [h], regs[1..]) && Remembers(log + [h], Delivered(regs[0], Pending(regs[0], ready)))
  {
    var r, tail := regs[0], regs[1..];
    var h := Report(r, Pending(r, ready));
    TailInv(log, regs);
    ReportKeeps(log, r, ready);
    forall i | 0 <= i < |tail| ensures Remembers(log + [h], tail[i]) { OneMore(log, h, tail[i].key); }
  }

  /** The rest of the scan, with what became of the head put back in front. */
  lemma {:induction false} ScanTail(log: seq<Happening>, r: Reg, tail: seq<Reg>, ready: Key -> set<Bit>, room: nat)
    requires Remembers(log, r) && Inv(log, tail) && forall i :: 0 <= i < |tail| ==> tail[i].key != r.key
    requires Inv(log + Reports(tail, ready, room), Scan(tail, ready, room).0)
    ensures Inv(log + Reports(tail, ready, room), [r] + Scan(tail, ready, room).0)
  {
    ScanKeys(tail, ready, room);
    ReportKeys(tail, ready, room);
    OthersReports(log, Reports(tail, ready, room), r.key);
    ConsInv(log + Reports(tail, ready, room), r, Scan(tail, ready, room).0);
  }

  /** The head reported, and then the rest of the scan. */
  lemma {:induction false} ScanTaken(log: seq<Happening>, regs: seq<Reg>, ready: Key -> set<Bit>, room: nat)
    requires regs != [] && room > 0 && Pending(regs[0], ready(regs[0].key)) != {}
    requires forall i :: 0 <= i < |regs[1..]| ==> regs[1..][i].key != regs[0].key
    requires var r, tail := regs[0], regs[1..]; var types := Pending(r, ready(r.key)); var h := Report(r, types);
      && Due(log, h) && Inv(log + [h], tail) && Remembers(log + [h], Delivered(r, types))
      && Inv(log + [h] + Reports(tail, ready, room - 1), Scan(tail, ready, room - 1).0)
      && DueAfter(log + [h], Reports(tail, ready, room - 1))
    ensures Inv(log + Reports(regs, ready, room), Scan(regs, ready, room).0)
    ensures DueAfter(log, Reports(regs, ready, room))
  {
    var types := Pending(regs[0], ready(regs[0].key));
    var h, more := Report(regs[0], types), Reports(regs[1..], ready, room - 1);
    ScanTail(log + [h], Delivered(regs[0], types), regs[1..], ready, room - 1);
    DueOneMore(log, h, more);
    assert log + ([h] + more) == log + [h] + more;
  }

  lemma {:induction false} ScanKeepsInv(log: seq<Happening>, regs: seq<Reg>, ready: Key -> set<Bit>, room: nat)
    requires Inv(log, regs)
    ensures Inv(log + Reports(regs, ready, room), Scan(regs, ready, room).0)
    ensures DueAfter(log, Reports(regs, ready, room))
    decreases |regs|
  {
    if regs == [] {
      assert log + Reports(regs, ready, room) == log;
    } else {
      TailInv(log, regs);
      var types := Pending(regs[0], ready(regs[0].key));
      if types == {} || room == 0 {
        ScanKeepsInv(log, regs[1..], ready, room);
        ScanTail(log, regs[0], regs[1..], ready, room);
      } else {
        var h := Report(regs[0], types);
        ReportHead(log, regs, ready(regs[0].key));
        ScanKeepsInv(log + [h], regs[1..], ready, room - 1);
        ScanTaken(log, regs, ready, room);
      }
    }
  }

  lemma {:induction false} ModKeepsInv(log: seq<Happening>, regs: seq<Reg>, key: Key, types: set<Bit>, info: nat)
    requires Inv(log, regs)
    ensures Inv(log + Happened(regs, Mod(key, types, info)), Change(regs, key, types, info))
    ensures DueAfter(log, Happened(regs, Mod(key, types, info)))
  {
    var after := Change(regs, key, types, info);
    SameKeysUnique(regs, after);
    if Has(regs, key) {
      var h := Armed(key, types);
      forall i | 0 <= i < |after| ensures Remembers(log + [h], after[i]) { OneMore(log, h, regs[i].key); }
    } else {
      assert log + [] == log;
      forall i | 0 <= i < |after| ensures Remembers(log, after[i]) { assert regs[i].key != key; }
    }
  }

  /** An edge on a description, from a wakeup or from the host. */
  lemma {:induction false} EdgeKeepsInv(log: seq<Happening>, regs: seq<Reg>, after: seq<Reg>, fd: Fd, events: set<Bit>, skipFired: bool)
    requires Inv(log, regs) && |after| == |regs|
    requires forall i :: 0 <= i < |regs| ==>
               after[i] == if regs[i].key.fd == fd && !(skipFired && regs[i].fired) then Edge(regs[i], events) else regs[i]
    ensures Inv(log + [Edged(Hearers(regs, fd, skipFired), events)], after)
  {
    SameKeysUnique(regs, after);
    var h := Edged(Hearers(regs, fd, skipFired), events);
    forall i | 0 <= i < |after| ensures Remembers(log + [h], after[i]) {
      OneMore(log, h, regs[i].key);
      HearersExactly(regs, fd, skipFired, i);
    }
  }

  lemma {:induction false} StepKeepsInv(log: seq<Happening>, regs: seq<Reg>, op: Op)
    requires Inv(log, regs)
    ensures Inv(log + Happened(regs, op), Step(regs, op)) && DueAfter(log, Happened(regs, op))
  {
    var after, more := Step(regs, op), Happened(regs, op);
    if more == [] { assert log + more == log; }
    match op
    case Add(key, types, info) =>
      if !Has(regs, key) {
        var added := Reg(key, types, info, {}, false);
        OneMore(log, more[0], key);
        assert forall b :: !Spent(log + more, key, b);
        forall i | 0 <= i < |regs| ensures Remembers(log + more, regs[i]) { OneMore(log, more[0], regs[i].key); }
        ConsInv(log + more, added, regs);
      }
    case Mod(key, types, info) => ModKeepsInv(log, regs, key, types, info);
    case Del(key) =>
      RemoveMeaning(regs, key);
      forall i | 0 <= i < |after| ensures Remembers(log, after[i]) { assert after[i] in regs; }
    case Cleanup(fd) =>
      CleanedUnique(regs, fd);
      CleanedMembers(regs, fd);
      forall i | 0 <= i < |after| ensures Remembers(log, after[i]) { assert after[i] in regs; }
    case Wakeup(fd, events) => EdgeKeepsInv(log, regs, after, fd, events, true);
    case HostEvent(fd, events) => EdgeKeepsInv(log, regs, after, fd, events, false);
    case Wait(ready, room) => ScanKeepsInv(log, regs, Answer(ready), room);
  }

  lemma DueAppend(log: seq<Happening>, a: seq<Happening>, b: seq<Happening>)
    requires DueAfter(log, a) && DueAfter(log + a, b)
    ensures DueAfter(log, a + b)
  {
    forall j | 0 <= j < |a + b| ensures Due(log + (a + b)[..j], (a + b)[j]) {
      if j < |a| {
        assert (a + b)[..j] == a[..j];
      } else {
        assert log + (a + b)[..j] == log + a + b[..j - |a|];
      }
    }
  }

  lemma {:induction false} RunKeepsInv(log: seq<Happening>, regs: seq<Reg>, ops: seq<Op>)
    requires Inv(log, regs)
    ensures Inv(log + Log(regs, ops), End(regs, ops)) && DueAfter(log, Log(regs, ops))
    decreases |ops|
  {
    if ops == [] {
      assert log + Log(regs, ops) == log;
    } else {
      var now := Happened(regs, ops[0]);
      StepKeepsInv(log, regs, ops[0]);
      RunKeepsInv(log + now, Step(regs, ops[0]), ops[1..]);
      var later := Log(Step(regs, ops[0]), ops[1..]);
      DueAppend(log, now, later);
      assert log + (now + later) == log + now + later;
    }
  }

  // ---------------------------------------------------------------------------------------------
  // Main results
  // ---------------------------------------------------------------------------------------------

  /** Between two reports of a oneshot registration it was armed: added, or modified. */
  lemma OneshotOncePerArm(ops: seq<Op>, i: nat, j: nat)
    requires var log := Log([], ops); i < j < |log| && log[i].Reported? && log[j].Reported? && log[i].key == log[j].key
    requires Log([], ops)[i].oneshot
    ensures var log := Log([], ops); exists m :: i < m < j && Arms(log[m], log[i].key)
  {
    var log := Log([], ops);
    RunKeepsInv([], [], ops);
    assert [] + log[..j] == log[..j];
    assert Due([] + log[..j], log[j]);
    ArmedSince(log[..j], i);
  }

  lemma {:induction false} ArmedSince(log: seq<Happening>, i: nat)
    requires i < |log| && log[i].Reported? && log[i].oneshot && !Disarmed(log, log[i].key)
    ensures exists m :: i < m < |log| && Arms(log[m], log[i].key)
    decreases |log|
  {
    if !Arms(log[|log| - 1], log[i].key) {
      assert i != |log| - 1;
      var rest := log[..|log| - 1];
      ArmedSince(rest, i);
      var m :| i < m < |rest| && Arms(rest[m], log[i].key);
      assert Arms(log[m], log[i].key);
    }
  }

  /** Between two reports of a bit of an edge-triggered registration it heard of a wakeup or a host event with
      that bit, was added, or was modified not to ask for it. */
  lemma EdgeOncePerRenewal(ops: seq<Op>, i: nat, j: nat, b: Bit)
    requires var log := Log([], ops); i < j < |log| && log[i].Reported? && log[j].Reported? && log[i].key == log[j].key
    requires var log := Log([], ops); log[i].edge && log[j].edge && b in log[i].types && b in log[j].types
    ensures var log := Log([], ops); exists m :: i < m < j && Renews(log[m], log[i].key, b)
  {
    var log := Log([], ops);
    RunKeepsInv([], [], ops);
    assert [] + log[..j] == log[..j];
    assert Due([] + log[..j], log[j]);
    RenewedSince(log[..j], i, b);
  }

  lemma {:induction false} RenewedSince(log: seq<Happening>, i: nat, b: Bit)
    requires i < |log| && log[i].Reported? && log[i].edge && b in log[i].types && !Spent(log, log[i].key, b)
    ensures exists m :: i < m < |log| && Renews(log[m], log[i].key, b)
    decreases |log|
  {
    if !Renews(log[|log| - 1], log[i].key, b) {
      assert i != |log| - 1;
      var rest := log[..|log| - 1];
      RenewedSince(rest, i, b);
      var m :| i < m < |rest| && Renews(rest[m], log[i].key, b);
      assert Renews(log[m], log[i].key, b);
    }
  }

  /** Main result, both ways: after any run a bit would be reported of a registration exactly when it is ready
      and asked for, the registration was armed since its last oneshot report, and, if edge-triggered, the bit
      was renewed since it was last reported. */
  lemma ReportedExactly(ops: seq<Op>, i: nat, ready: set<Bit>, b: Bit)
    requires i < |End([], ops)|
    ensures var r, log := End([], ops)[i], Log([], ops);
            b in Pending(r, ready) <==>
            && b in ready && (b in r.types || b == HUP || b == ERR)
            && !Disarmed(log, r.key) && (EDGETRIGGERED in r.types ==> !Spent(log, r.key, b))
  {
    RunKeepsInv([], [], ops);
    assert [] + Log([], ops) == Log([], ops);
    assert Remembers(Log([], ops), End([], ops)[i]);
  }

  /** What comes of an edge that arrives before a modification: with the bit spent until then, it is reported
      exactly when the registration was edge-triggered and had not fired. A wakeup of a fired oneshot is lost. */
  lemma WakeupBeforeMod(regs: seq<Reg>, i: nat, events: set<Bit>, types: set<Bit>, info: nat, ready: set<Bit>, b: Bit)
    requires Unique(regs) && i < |regs| && EDGETRIGGERED in types && b in types && b in ready
    ensures var after := Change(Woken(regs, regs[i].key.fd, events), regs[i].key, types, info);
            b in Pending(after[i], ready) <==>
            b !in regs[i].triggered || (b in events && EDGETRIGGERED in regs[i].types && !regs[i].fired)
  {
    var woken := Woken(regs, regs[i].key.fd, events);
    assert woken[i].key == regs[i].key;
  }

  /** (fd number, description) pairs are unique in every reachable set. */
  lemma PairsStayUnique(ops: seq<Op>)
    ensures Unique(End([], ops))
  {
    RunKeepsInv([], [], ops);
  }

  // ---------------------------------------------------------------------------------------------
  // What the guest asked for
  // ---------------------------------------------------------------------------------------------

  /** The interest in a pair, from the calls alone: the last addition or modification that took, unless a
      removal came after it. An addition takes when there is no interest yet, a modification when there is. */
  datatype Interest = NoInterest | Interest(types: set<Bit>, info: nat)

  function Asked(ops: seq<Op>, key: Key): Interest
    decreases |ops|
  {
    if ops == [] then NoInterest else
      var before := Asked(ops[..|ops| - 1], key);
      match ops[|ops| - 1]
      case Add(k, types, info) => if k == key && before.NoInterest? then Interest(types, info) else before
      case Mod(k, types, info) => if k == key && before.Interest? then Interest(types, info) else before
      case Del(k) => if k == key then NoInterest else before
      case Cleanup(fd) => if key.fd == fd then NoInterest else before
      case Wakeup(_, _) => before
      case HostEvent(_, _) => before
      case Wait(_, _) => before
  }

  /** The set has the pair registered exactly when there is interest in it, with these types and this data. */
  ghost predicate Holds(regs: seq<Reg>, key: Key, asked: Interest) {
    && (Has(regs, key) <==> asked.Interest?)
    && forall i :: 0 <= i < |regs| && regs[i].key == key ==> asked == Interest(regs[i].types, regs[i].info)
  }

  lemma {:induction false} AskedSnoc(ops: seq<Op>, op: Op)
    ensures (ops + [op])[..|ops + [op]| - 1] == ops && (ops + [op])[|ops + [op]| - 1] == op
  {}

  /** Two sets that agree on the pair in keys, types and data. */
  lemma {:induction false} HoldsSame(a: seq<Reg>, b: seq<Reg>, key: Key, asked: Interest)
    requires Holds(a, key, asked) && SameKeys(a, b)
    requires forall i :: 0 <= i < |a| ==> b[i].types == a[i].types && b[i].info == a[i].info
    ensures Holds(b, key, asked)
  {
    if Has(a, key) {
      var i :| 0 <= i < |a| && a[i].key == key;
      assert b[i].key == key;
    }
  }

  lemma {:induction false} HoldsChanged(regs: seq<Reg>, key: Key, asked: Interest, k: Key, types: set<Bit>, info: nat)
    requires Holds(regs, key, asked)
    ensures Holds(Change(regs, k, types, info), key, if k == key && asked.Interest? then Interest(types, info) else asked)
  {
    var after := Change(regs, k, types, info);
    if Has(regs, key) {
      var i :| 0 <= i < |regs| && regs[i].key == key;
      assert after[i].key == key;
    }
    if Has(after, key) {
      var i :| 0 <= i < |after| && after[i].key == key;
      assert regs[i].key == key;
    }
  }

  lemma {:induction false} HoldsFewer(regs: seq<Reg>, after: seq<Reg>, key: Key, asked: Interest, gone: bool)
    requires Holds(regs, key, asked)
    requires forall x :: x in after ==> x in regs && (x.key == key ==> !gone)
    requires forall x :: x in regs && x.key == key && !gone ==> x in after
    ensures Holds(after, key, if gone then NoInterest else asked)
  {
    forall i | 0 <= i < |after| && after[i].key == key ensures !gone && asked == Interest(after[i].types, after[i].info) {
      assert after[i] in after;
      var j :| 0 <= j < |regs| && regs[j] == after[i];
    }
    if Has(regs, key) && !gone {
      var j :| 0 <= j < |regs| && regs[j].key == key;
      assert regs[j] in after;
      var i :| 0 <= i < |after| && after[i] == regs[j];
    }
  }

  lemma {:induction false} HoldsAdded(regs: seq<Reg>, key: Key, asked: Interest, added: Reg)
    requires Holds(regs, key, asked) && !Has(regs, added.key)
    ensures Holds([added] + regs, key, if added.key == key then Interest(added.types, added.info) else asked)
  {
    var after := [added] + regs;
    assert after[0] == added;
    forall i | 0 <= i < |after| && after[i].key == key ensures i == 0 || after[i] == regs[i - 1] {}
    if Has(regs, key) {
      var i :| 0 <= i < |regs| && regs[i].key == key;
      assert after[i + 1].key == key;
    }
    if Has(after, key) && added.key != key {
      var i :| 0 <= i < |after| && after[i].key == key;
      assert regs[i - 1].key == key;
    }
  }

  lemma {:induction false} ScanKeepsFields(regs: seq<Reg>, ready: Key -> set<Bit>, room: nat)
    ensures var after := Scan(regs, ready, room).0;
            SameKeys(regs, after) && forall i :: 0 <= i < |regs| ==> after[i].types == regs[i].types && after[i].info == regs[i].info
  {
    if regs != [] {
      var types := Pending(regs[0], ready(regs[0].key));
      ScanKeepsFields(regs[1..], ready, if types == {} || room == 0 then room else room - 1);
    }
  }

  lemma {:induction false} DelHolds(regs: seq<Reg>, key: Key, asked: Interest, k: Key)
    requires Unique(regs) && Holds(regs, key, asked)
    ensures Holds(Remove(regs, k), key, if k == key then NoInterest else asked)
  {
    RemoveMeaning(regs, k);
    HoldsFewer(regs, Remove(regs, k), key, asked, k == key);
  }

  lemma {:induction false} CleanupHolds(regs: seq<Reg>, key: Key, asked: Interest, fd: Fd)
    requires Holds(regs, key, asked)
    ensures Holds(Cleaned(regs, fd), key, if key.fd == fd then NoInterest else asked)
  {
    CleanedMembers(regs, fd);
    HoldsFewer(regs, Cleaned(regs, fd), key, asked, key.fd == fd);
  }

  lemma {:induction false} WaitHolds(regs: seq<Reg>, key: Key, asked: Interest, ready: Key -> set<Bit>, room: nat)
    requires Holds(regs, key, asked)
    ensures Holds(Scan(regs, ready, room).0, key, asked)
  {
    ScanKeepsFields(regs, ready, room);
    HoldsSame(regs, Scan(regs, ready, room).0, key, asked);
  }

  lemma {:induction false} StepHolds(regs: seq<Reg>, ops: seq<Op>, op: Op, key: Key)
    requires Unique(regs) && Holds(regs, key, Asked(ops, key))
    ensures Holds(Step(regs, op), key, Asked(ops + [op], key))
  {
    AskedSnoc(ops, op);
    var asked := Asked(ops, key);
    match op
    case Add(k, types, info) => if !Has(regs, k) { HoldsAdded(regs, key, asked, Reg(k, types, info, {}, false)); }
    case Mod(k, types, info) => HoldsChanged(regs, key, asked, k, types, info);
    case Del(k) => DelHolds(regs, key, asked, k);
    case Cleanup(fd) => CleanupHolds(regs, key, asked, fd);
    case Wakeup(fd, events) => HoldsSame(regs, Woken(regs, fd, events), key, asked);
    case HostEvent(fd, events) => HoldsSame(regs, Signalled(regs, fd, events), key, asked);
    case Wait(ready, room) => WaitHolds(regs, key, asked, Answer(ready), room);
  }

  lemma {:induction false} EndSnoc(regs: seq<Reg>, ops: seq<Op>, op: Op)
    ensures End(regs, ops + [op]) == Step(End(regs, ops), op)
    decreases |ops|
  {
    if ops == [] {
      assert [op][1..] == [];
    } else {
      assert (ops + [op])[1..] == ops[1..] + [op];
      EndSnoc(Step(regs, ops[0]), ops[1..], op);
    }
  }

  /** Main result: after any run a pair is registered exactly when the calls leave interest in it, with the types
      and the data of the last addition or modification that took. */
  lemma {:induction false} RegisteredAsAsked(ops: seq<Op>, key: Key)
    ensures Holds(End([], ops), key, Asked(ops, key))
    decreases |ops|
  {
    if ops != [] {
      var before, last := ops[..|ops| - 1], ops[|ops| - 1];
      assert ops == before + [last];
      RegisteredAsAsked(before, key);
      PairsStayUnique(before);
      EndSnoc([], before, last);
      StepHolds(End([], before), before, last, key);
    }
  }

  /** Every event handed out after any run carries the data of the call that asked for it, and only bits that
      call asked for, or HUP or ERR. */
  lemma {:induction false} EventsCarryWhatWasAsked(ops: seq<Op>, ready: Key -> set<Bit>, room: nat, e: Event)
    requires e in Scan(End([], ops), ready, room).1
    ensures var asked := Asked(ops, e.key);
            asked.Interest? && e.info == asked.info && e.types <= ready(e.key) && e.types <= asked.types + {HUP, ERR}
  {
    var regs := End([], ops);
    PairsStayUnique(ops);
    ScanKeys(regs, ready, room);
    var i :| 0 <= i < |regs| && regs[i].key == e.key;
    ScanMeaning(regs, ready, room, i);
    RegisteredAsAsked(ops, e.key);
  }
}
