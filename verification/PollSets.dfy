/**
 What a poll set holds and what is delivered from it (fs/poll.c, kernel/epoll.c): registrations as
 values, the readiness scan, and the rules of oneshot and edge-triggered delivery over whole runs.
 */
module PollSets {

  /** A bit of an event mask, by position. */
  type Bit = nat

  const ERR: Bit := 3
  const HUP: Bit := 4
  const ONESHOT: Bit := 30
  const EDGETRIGGERED: Bit := 31

  /** A description; `onHost` when its poll operation is the host's. */
  datatype Fd = Fd(id: nat, onHost: bool)

  datatype Key = Key(fd: Fd, fdNo: nat)

  /** struct poll_fd */
  datatype Reg = Reg(key: Key, types: set<Bit>, info: nat, triggered: set<Bit>, fired: bool)

  predicate Has(regs: seq<Reg>, key: Key) {
    exists i :: 0 <= i < |regs| && regs[i].key == key
  }

  /** No (fd number, description) pair is registered twice. */
  predicate Unique(regs: seq<Reg>) {
    regs == [] || (!Has(regs[1..], regs[0].key) && Unique(regs[1..]))
  }

  function Remove(regs: seq<Reg>, key: Key): seq<Reg> {
    if regs == [] then [] else if regs[0].key == key then regs[1..] else [regs[0]] + Remove(regs[1..], key)
  }

  function Change(regs: seq<Reg>, key: Key, types: set<Bit>, info: nat): (r: seq<Reg>)
    ensures |r| == |regs|
    ensures forall i :: 0 <= i < |r| ==> r[i] == if regs[i].key == key then Rearmed(regs[i], types, info) else regs[i]
  {
    if regs == [] then [] else
      [if regs[0].key == key then Rearmed(regs[0], types, info) else regs[0]] + Change(regs[1..], key, types, info)
  }

  /** EPOLL_CTL_MOD re-arms a fired oneshot and keeps the spent edges that are still asked for. */
  function Rearmed(r: Reg, types: set<Bit>, info: nat): Reg {
    r.(types := types, info := info, triggered := r.triggered * types, fired := false)
  }

  function Cleaned(regs: seq<Reg>, fd: Fd): seq<Reg> {
    if regs == [] then [] else
      (if regs[0].key.fd == fd then [] else [regs[0]]) + Cleaned(regs[1..], fd)
  }

  predicate SameKeys(a: seq<Reg>, b: seq<Reg>) {
    |a| == |b| && forall i :: 0 <= i < |a| ==> a[i].key == b[i].key
  }

  lemma {:induction false} SameKeysUnique(a: seq<Reg>, b: seq<Reg>)
    requires SameKeys(a, b) && Unique(a)
    ensures Unique(b)
    decreases |a|
  {
    if a != [] {
      forall i | 0 <= i < |b[1..]| ensures b[1..][i].key != b[0].key { assert a[1..][i].key == b[1..][i].key; }
      SameKeysUnique(a[1..], b[1..]);
    }
  }

  lemma {:induction false} KeysDiffer(regs: seq<Reg>, i: nat, j: nat)
    requires i < j < |regs| && Unique(regs)
    ensures regs[i].key != regs[j].key
    decreases |regs|
  {
    if i > 0 { KeysDiffer(regs[1..], i - 1, j - 1); } else { assert regs[1..][j - 1] == regs[j]; }
  }

  lemma {:induction false} RemoveMeaning(regs: seq<Reg>, key: Key)
    requires Unique(regs)
    ensures Unique(Remove(regs, key)) && forall x :: x in Remove(regs, key) <==> x in regs && x.key != key
  {
    if regs != [] {
      RemoveMeaning(regs[1..], key);
      assert regs == [regs[0]] + regs[1..];
      forall x | x in regs[1..] ensures x.key != regs[0].key { var i :| 0 <= i < |regs[1..]| && regs[1..][i] == x; }
      if regs[0].key != key {
        var rest := Remove(regs[1..], key);
        forall i | 0 <= i < |rest| ensures rest[i].key != regs[0].key { assert rest[i] in rest; }
        assert Remove(regs, key) == [regs[0]] + rest && Remove(regs, key)[1..] == rest;
      }
    }
  }

  lemma {:induction false} CleanedMembers(regs: seq<Reg>, fd: Fd)
    ensures forall x :: x in Cleaned(regs, fd) <==> x in regs && x.key.fd != fd
  {
    if regs != [] {
      CleanedMembers(regs[1..], fd);
      assert regs == [regs[0]] + regs[1..];
    }
  }

  lemma {:induction false} CleanedUnique(regs: seq<Reg>, fd: Fd)
    requires Unique(regs)
    ensures Unique(Cleaned(regs, fd))
  {
    if regs != [] {
      CleanedUnique(regs[1..], fd);
      CleanedMembers(regs[1..], fd);
      var rest := Cleaned(regs[1..], fd);
      if regs[0].key.fd != fd {
        forall i | 0 <= i < |rest| ensures rest[i].key != regs[0].key {
          assert rest[i] in regs[1..];
          var j :| 0 <= j < |regs[1..]| && regs[1..][j] == rest[i];
        }
        assert Cleaned(regs, fd)[1..] == rest;
      } else {
        assert Cleaned(regs, fd) == rest;
      }
    }
  }

  function Edge(r: Reg, events: set<Bit>): Reg {
    if EDGETRIGGERED in r.types then r.(triggered := r.triggered - events) else r
  }

  /** poll_wakeup */
  function Woken(regs: seq<Reg>, fd: Fd, events: set<Bit>): (r: seq<Reg>)
    ensures |r| == |regs|
    ensures forall i :: 0 <= i < |r| ==>
              r[i] == if regs[i].key.fd == fd && !regs[i].fired then Edge(regs[i], events) else regs[i]
  {
    if regs == [] then [] else
      [if regs[0].key.fd == fd && !regs[0].fired then Edge(regs[0], events) else regs[0]] + Woken(regs[1..], fd, events)
  }

  /** The host reported events on a description: every registration of it hears of them. */
  function Signalled(regs: seq<Reg>, fd: Fd, events: set<Bit>): (r: seq<Reg>)
    ensures |r| == |regs|
    ensures forall i :: 0 <= i < |r| ==> r[i] == if regs[i].key.fd == fd then Edge(regs[i], events) else regs[i]
  {
    if regs == [] then [] else
      [if regs[0].key.fd == fd then Edge(regs[0], events) else regs[0]] + Signalled(regs[1..], fd, events)
  }

  /** The registrations that hear of an edge on the description: a wakeup passes fired ones over, an event
      of the host does not. */
  function Hearers(regs: seq<Reg>, fd: Fd, skipFired: bool): set<Key> {
    set r | r in regs && r.key.fd == fd && EDGETRIGGERED in r.types && !(skipFired && r.fired) :: r.key
  }

  lemma HearersExactly(regs: seq<Reg>, fd: Fd, skipFired: bool, i: nat)
    requires Unique(regs) && i < |regs|
    ensures regs[i].key in Hearers(regs, fd, skipFired) <==>
            regs[i].key.fd == fd && EDGETRIGGERED in regs[i].types && !(skipFired && regs[i].fired)
  {
    if regs[i].key in Hearers(regs, fd, skipFired) {
      var r :| r in regs && r.key == regs[i].key && r.key.fd == fd && EDGETRIGGERED in r.types && !(skipFired && r.fired);
      var j :| 0 <= j < |regs| && regs[j] == r;
      if j != i { KeysDiffer(regs, if i < j then i else j, if i < j then j else i); }
    } else {
      assert regs[i] in regs;
    }
  }

  // ---------------------------------------------------------------------------------------------
  // The host registration
  // ---------------------------------------------------------------------------------------------

  /** The types of the armed registrations of a description. */
  function Union(regs: seq<Reg>, fd: Fd): set<Bit> {
    if regs == [] then {} else
      (if regs[0].key.fd == fd && !regs[0].fired then regs[0].types else {}) + Union(regs[1..], fd)
  }

  /** real_poll_update drops the oneshot bit; no types means no registration. */
  function Wanted(regs: seq<Reg>, fd: Fd): set<Bit> {
    Union(regs, fd) - {ONESHOT}
  }

  function Registered(host: map<Fd, set<Bit>>, fd: Fd): set<Bit> {
    if fd in host then host[fd] else {}
  }

  /** One host registration for each real description, of what its armed registrations ask for. */
  ghost predicate HostMatches(regs: seq<Reg>, host: map<Fd, set<Bit>>) {
    && (forall fd: Fd :: fd.onHost ==> Registered(host, fd) == Wanted(regs, fd))
    && (forall fd :: fd in host ==> fd.onHost && host[fd] != {})
  }

  /** A bit is asked of the host exactly when an armed registration asks for it; the oneshot bit never is. */
  lemma {:induction false} UnionMeaning(regs: seq<Reg>, fd: Fd, b: Bit)
    ensures b in Union(regs, fd) <==>
            exists i :: 0 <= i < |regs| && regs[i].key.fd == fd && !regs[i].fired && b in regs[i].types
    ensures b in Wanted(regs, fd) <==>
            b != ONESHOT && exists i :: 0 <= i < |regs| && regs[i].key.fd == fd && !regs[i].fired && b in regs[i].types
  {
    if regs != [] {
      UnionMeaning(regs[1..], fd, b);
      if b in Union(regs[1..], fd) {
        var i :| 0 <= i < |regs[1..]| && regs[1..][i].key.fd == fd && !regs[1..][i].fired && b in regs[1..][i].types;
        assert regs[i + 1] == regs[1..][i];
      }
      if i :| 0 <= i < |regs| && regs[i].key.fd == fd && !regs[i].fired && b in regs[i].types {
        if i > 0 { assert regs[1..][i - 1] == regs[i]; }
      }
    }
  }

  // ---------------------------------------------------------------------------------------------
  // The readiness scan
  // ---------------------------------------------------------------------------------------------

  /** What the scan would report of a registration, when its description, asked for it, answers `ready`. */
  function Pending(r: Reg, ready: set<Bit>): set<Bit> {
    if r.fired then {} else
      var asked := ready * (r.types + {HUP, ERR});
      if EDGETRIGGERED in r.types then asked - r.triggered else asked
  }

  /** The registration once its event was taken. */
  function Delivered(r: Reg, types: set<Bit>): Reg {
    var shot := if ONESHOT in r.types then r.(fired := true) else r;
    if EDGETRIGGERED in r.types then shot.(triggered := r.triggered + types) else shot
  }

  datatype Event = Event(key: Key, types: set<Bit>, info: nat)

  /** The scan over the list, with `room` for that many more events. */
  function Scan(regs: seq<Reg>, ready: Key -> set<Bit>, room: nat): (r: (seq<Reg>, seq<Event>))
    ensures |r.0| == |regs| && |r.1| <= room
  {
    if regs == [] then ([], []) else
      var types := Pending(regs[0], ready(regs[0].key));
      if types == {} || room == 0 then
        var rest := Scan(regs[1..], ready, room);
        ([regs[0]] + rest.0, rest.1)
      else
        var rest := Scan(regs[1..], ready, room - 1);
        ([Delivered(regs[0], types)] + rest.0, [Event(regs[0].key, types, regs[0].info)] + rest.1)
  }

  /** The scan takes the registrations in list order: one it reports was pending, everything it does not
      report it leaves as it was, and it leaves a pending one out only when the batch is full. */
  lemma {:induction false} ScanMeaning(regs: seq<Reg>, ready: Key -> set<Bit>, room: nat, i: nat)
    requires i < |regs| && Unique(regs)
    ensures var types := Pending(regs[i], ready(regs[i].key)); var r := Scan(regs, ready, room);
            if exists e :: e in r.1 && e.key == regs[i].key
            then types != {} && r.0[i] == Delivered(regs[i], types)
                 && (forall e :: e in r.1 && e.key == regs[i].key ==> e == Event(regs[i].key, types, regs[i].info))
            else r.0[i] == regs[i] && (types == {} || |r.1| == room)
    decreases |regs|
  {
    var types := Pending(regs[0], ready(regs[0].key));
    var taken := types != {} && room > 0;
    var left := if taken then room - 1 else room;
    var rest := Scan(regs[1..], ready, left);
    ScanKeys(regs[1..], ready, left);
    if i > 0 {
      assert regs[1..][i - 1] == regs[i];
      ScanMeaning(regs[1..], ready, left, i - 1);
      assert regs[i].key != regs[0].key;
    } else {
      forall e | e in rest.1 ensures e.key != regs[0].key { assert Has(regs[1..], e.key); }
    }
  }

  lemma {:induction false} ScanKeys(regs: seq<Reg>, ready: Key -> set<Bit>, room: nat)
    ensures forall e :: e in Scan(regs, ready, room).1 ==> Has(regs, e.key)
    ensures forall i :: 0 <= i < |regs| ==> Scan(regs, ready, room).0[i].key == regs[i].key
  {
    if regs != [] {
      var types := Pending(regs[0], ready(regs[0].key));
      var left := if types != {} && room > 0 then room - 1 else room;
      ScanKeys(regs[1..], ready, left);
      forall e | e in Scan(regs, ready, room).1 ensures Has(regs, e.key) {
        if e in Scan(regs[1..], ready, left).1 {
          var j :| 0 <= j < |regs[1..]| && regs[1..][j].key == e.key;
          assert regs[j + 1].key == e.key;
        } else {
          assert regs[0].key == e.key;
        }
      }
    }
  }
}
