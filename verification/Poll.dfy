/**
 The poll set itself (fs/poll.c) with its shared host registrations, and the epoll calls on top of it
 (kernel/epoll.c). An update of the host registration is a parameter: it is applied, or it is refused
 and leaves anything behind.
 */
module Poll {
  import opened PollSets

  const EPOLL_MAX_EVENTS: nat := 1024

  datatype Option<+T> = None | Some(value: T)

  datatype Error = Ok | EEXIST | ENOENT | EINVAL | EPERM | EFAULT | EHOST

  datatype Answer = Applied | Refused(left: set<Bit>)

  function SetHost(host: map<Fd, set<Bit>>, fd: Fd, bits: set<Bit>): map<Fd, set<Bit>> {
    if bits == {} then host - {fd} else host[fd := bits]
  }

  /** The host registrations are right for every description but one. */
  ghost predicate MatchesBut(regs: seq<Reg>, host: map<Fd, set<Bit>>, but: Fd) {
    && (forall fd: Fd :: fd.onHost && fd != but ==> Registered(host, fd) == Wanted(regs, fd))
    && (forall fd :: fd in host && fd != but ==> fd.onHost && host[fd] != {})
  }

  /** An applied refresh is all that was missing. */
  lemma RefreshMatches(regs: seq<Reg>, host: map<Fd, set<Bit>>, fd: Fd)
    requires MatchesBut(regs, host, fd) && fd.onHost
    ensures HostMatches(regs, SetHost(host, fd, Wanted(regs, fd)))
  {}

  lemma RefusalSparesOthers(regs: seq<Reg>, host: map<Fd, set<Bit>>, fd: Fd, left: set<Bit>)
    requires MatchesBut(regs, host, fd) && fd.onHost
    ensures MatchesBut(regs, SetHost(host, fd, left), fd)
  {}

  /** The host registrations are determined by the set. */
  lemma MatchingIsUnique(regs: seq<Reg>, a: map<Fd, set<Bit>>, b: map<Fd, set<Bit>>)
    requires HostMatches(regs, a) && HostMatches(regs, b)
    ensures a == b
  {
    forall fd | fd in a ensures fd in b && b[fd] == a[fd] { assert Registered(a, fd) == Registered(b, fd); }
    forall fd | fd in b ensures fd in a { assert Registered(a, fd) == Registered(b, fd); }
  }

  lemma {:induction false} UnionSame(a: seq<Reg>, b: seq<Reg>, fd: Fd)
    requires SameKeys(a, b)
    requires forall i :: 0 <= i < |a| && a[i].key.fd == fd ==> a[i].types == b[i].types && a[i].fired == b[i].fired
    ensures Union(a, fd) == Union(b, fd)
    decreases |a|
  {
    if a != [] { UnionSame(a[1..], b[1..], fd); }
  }

  lemma {:induction false} UnionRemove(regs: seq<Reg>, key: Key, fd: Fd)
    requires fd != key.fd
    ensures Union(Remove(regs, key), fd) == Union(regs, fd)
  {
    if regs != [] {
      UnionRemove(regs[1..], key, fd);
      if regs[0].key != key { assert ([regs[0]] + Remove(regs[1..], key))[1..] == Remove(regs[1..], key); }
    }
  }

  lemma {:induction false} UnionCleaned(regs: seq<Reg>, gone: Fd, fd: Fd)
    ensures Union(Cleaned(regs, gone), fd) == if fd == gone then {} else Union(regs, fd)
  {
    if regs != [] {
      UnionCleaned(regs[1..], gone, fd);
      var rest := Cleaned(regs[1..], gone);
      if regs[0].key.fd == gone {
        assert Cleaned(regs, gone) == rest;
      } else {
        assert Cleaned(regs, gone) == [regs[0]] + rest && ([regs[0]] + rest)[1..] == rest;
      }
    }
  }

  /** A change to registrations of one description leaves the others' host registrations right. */
  lemma {:induction false} ChangeSparesOthers(a: seq<Reg>, b: seq<Reg>, host: map<Fd, set<Bit>>, fd: Fd)
    requires HostMatches(a, host)
    requires forall other: Fd :: other != fd ==> Union(a, other) == Union(b, other)
    ensures MatchesBut(b, host, fd) && (!fd.onHost ==> HostMatches(b, host))
  {
    forall other: Fd | other != fd ensures Wanted(a, other) == Wanted(b, other) { assert Union(a, other) == Union(b, other); }
  }

  lemma {:induction false} RemoveAt(regs: seq<Reg>, i: nat)
    requires i < |regs| && Unique(regs)
    ensures Remove(regs, regs[i].key) == regs[..i] + regs[i + 1..]
    decreases |regs|
  {
    if i == 0 {
      assert regs[..0] + regs[1..] == regs[1..];
    } else {
      assert regs[1..][i - 1] == regs[i];
      assert regs[i].key != regs[0].key;
      RemoveAt(regs[1..], i - 1);
      assert [regs[0]] + (regs[1..][..i - 1] + regs[1..][i..]) == regs[..i] + regs[i + 1..];
    }
  }

  lemma {:induction false} ChangeAt(regs: seq<Reg>, i: nat, types: set<Bit>, info: nat)
    requires i < |regs| && Unique(regs)
    ensures Change(regs, regs[i].key, types, info) == regs[i := Rearmed(regs[i], types, info)]
  {
    forall j | 0 <= j < |regs| && j != i ensures regs[j].key != regs[i].key {
      KeysDiffer(regs, if i < j then i else j, if i < j then j else i);
    }
  }

  lemma {:induction false} ChangedAt(regs: seq<Reg>, i: nat, types: set<Bit>, info: nat)
    requires i < |regs| && Unique(regs)
    ensures var after := regs[i := Rearmed(regs[i], types, info)];
            && Change(regs, regs[i].key, types, info) == after && Unique(after) && after[i := regs[i]] == regs
            && forall other: Fd :: other != regs[i].key.fd ==> Union(regs, other) == Union(after, other)
  {
    ChangeAt(regs, i, types, info);
    var after := regs[i := Rearmed(regs[i], types, info)];
    SameKeysUnique(regs, after);
    forall other: Fd | other != regs[i].key.fd ensures Union(regs, other) == Union(after, other) { UnionSame(regs, after, other); }
  }

  class PollSet {
    var regs: seq<Reg>
    var host: map<Fd, set<Bit>>
    var waiters: nat
    var pipeOpen: bool

    /** The pipe exists exactly while someone waits. */
    ghost predicate Valid()
      reads this`regs, this`waiters, this`pipeOpen
    {
      Unique(regs) && (pipeOpen <==> waiters > 0)
    }

    ghost predicate Synced()
      reads this`regs, this`host
    {
      HostMatches(regs, host)
    }

    constructor ()
      ensures Valid() && Synced() && regs == []
    {
      regs, host, waiters, pipeOpen := [], map[], 0, false;
    }

    /** poll_find_fd */
    method Find(key: Key) returns (r: Option<nat>)
      ensures r.Some? ==> r.value < |regs| && regs[r.value].key == key && Has(regs, key)
      ensures r.None? ==> !Has(regs, key)
    {
      var i := 0;
      while i < |regs|
        invariant i <= |regs| && forall j :: 0 <= j < i ==> regs[j].key != key
      {
        if regs[i].key == key { return Some(i); }
        i := i + 1;
      }
      return None;
    }

    /** poll_real_refresh: what the armed registrations of the description ask for, together. */
    method Refresh(fd: Fd, answer: Answer) returns (ok: bool)
      modifies this`host
      ensures ok == answer.Applied?
      ensures host == SetHost(old(host), fd, if ok then Wanted(regs, fd) else answer.left)
    {
      var types: set<Bit> := {};
      var i := 0;
      while i < |regs|
        invariant i <= |regs| && types + Union(regs[i..], fd) == Union(regs, fd)
      {
        assert regs[i..][1..] == regs[i + 1..];
        if regs[i].key.fd == fd && !regs[i].fired { types := types + regs[i].types; }
        i := i + 1;
      }
      ok := answer.Applied?;
      host := SetHost(host, fd, if ok then types - {ONESHOT} else answer.left);
    }

    /** The rebuild after a refused refresh, the registrations being those from before the call again. */
    method Rebuild(fd: Fd, ghost hostWas: map<Fd, set<Bit>>, ghost left: set<Bit>, answer: Answer)
      requires fd.onHost && host == SetHost(hostWas, fd, left)
      modifies this`host
      ensures HostMatches(regs, hostWas) && answer.Applied? ==> host == hostWas
    {
      ghost var torn := host;
      var ok := Refresh(fd, answer);
      if ok && HostMatches(regs, hostWas) {
        RefusalSparesOthers(regs, hostWas, fd, left);
        RefreshMatches(regs, torn, fd);
        MatchingIsUnique(regs, host, hostWas);
      }
    }

    /** poll_add_fd. `first` answers the refresh, `second` the rebuild after a refused one. */
    method Add(key: Key, types: set<Bit>, info: nat, first: Answer, second: Answer) returns (err: Error)
      requires Valid()
      modifies this`regs, this`host
      ensures Valid()
      ensures err == if Has(old(regs), key) then EEXIST else if key.fd.onHost && first.Refused? then EHOST else Ok
      ensures regs == if err == Ok then [Reg(key, types, info, {}, false)] + old(regs) else old(regs)
      ensures old(Synced()) && err != EHOST ==> Synced()
      ensures old(Synced()) && err == EHOST && second.Applied? ==> host == old(host)
    {
      var found := Find(key);
      if found.Some? { return EEXIST; }
      ghost var was := regs;
      regs := [Reg(key, types, info, {}, false)] + regs;
      assert regs[1..] == was;
      if old(Synced()) { ChangeSparesOthers(was, regs, host, key.fd); }
      if key.fd.onHost {
        var ok := Refresh(key.fd, first);
        if !ok {
          regs := regs[1..];
          Rebuild(key.fd, old(host), first.left, second);
          return EHOST;
        }
        if old(Synced()) { RefreshMatches(regs, old(host), key.fd); }
      }
      return Ok;
    }

    /** poll_del_fd: the removal happens whatever the host answers. */
    method Del(key: Key, answer: Answer) returns (err: Error)
      requires Valid()
      modifies this`regs, this`host
      ensures Valid() && err == (if Has(old(regs), key) then Ok else ENOENT) && regs == Remove(old(regs), key)
      ensures old(Synced()) && (key.fd.onHost ==> answer.Applied?) ==> Synced()
    {
      var found := Find(key);
      ghost var was := regs;
      RemoveMeaning(was, key);
      if found == None {
        NothingRemoved(was, key);
        return ENOENT;
      }
      RemoveAt(was, found.value);
      regs := regs[..found.value] + regs[found.value + 1..];
      forall other: Fd | other != key.fd ensures Union(was, other) == Union(regs, other) { UnionRemove(was, key, other); }
      if old(Synced()) { ChangeSparesOthers(was, regs, host, key.fd); }
      if key.fd.onHost {
        var ok := Refresh(key.fd, answer);
        if old(Synced()) && ok { RefreshMatches(regs, old(host), key.fd); }
      }
      return Ok;
    }

    /** The four fields poll_mod_fd sets. */
    method Rearm(i: nat, types: set<Bit>, info: nat)
      requires Valid() && i < |regs|
      modifies this`regs
      ensures Valid() && regs == Change(old(regs), old(regs)[i].key, types, info) && |regs| == |old(regs)|
      ensures regs[i := old(regs)[i]] == old(regs)
      ensures forall other: Fd :: other != old(regs)[i].key.fd ==> Union(old(regs), other) == Union(regs, other)
    {
      ChangedAt(regs, i, types, info);
      regs := regs[i := regs[i].(types := types, info := info, triggered := regs[i].triggered * types, fired := false)];
    }

    /** poll_mod_fd: all four fields are put back when the host refuses. */
    method Mod(key: Key, types: set<Bit>, info: nat, first: Answer, second: Answer) returns (err: Error)
      requires Valid()
      modifies this`regs, this`host
      ensures Valid()
      ensures err == if !Has(old(regs), key) then ENOENT else if key.fd.onHost && first.Refused? then EHOST else Ok
      ensures regs == if err == Ok then Change(old(regs), key, types, info) else old(regs)
      ensures old(Synced()) && err != EHOST ==> Synced()
      ensures old(Synced()) && err == EHOST && second.Applied? ==> host == old(host)
    {
      var found := Find(key);
      if found == None { return ENOENT; }
      var i := found.value;
      ghost var was := regs;
      var before := regs[i];
      Rearm(i, types, info);
      if old(Synced()) { ChangeSparesOthers(was, regs, host, key.fd); }
      if key.fd.onHost {
        var ok := Refresh(key.fd, first);
        if !ok {
          regs := regs[i := before];
          assert regs == was;
          Rebuild(key.fd, old(host), first.left, second);
          return EHOST;
        }
        if old(Synced()) { RefreshMatches(regs, old(host), key.fd); }
      }
      return Ok;
    }

    /** poll_cleanup_fd, as far as it concerns this set. The host is asked to drop the description with
        every registration that goes. */
    method Cleanup(fd: Fd, answer: Answer)
      requires Valid()
      modifies this`regs, this`host
      ensures Valid() && regs == Cleaned(old(regs), fd)
      ensures old(Synced()) && answer == Applied ==> Synced()
    {
      ghost var was, hostWas := regs, host;
      var left := match answer case Applied => {} case Refused(bits) => bits;
      CleanedUnique(was, fd);
      assert was[0..] == was;
      ghost var hit := false;
      var kept: seq<Reg> := [];
      var i := 0;
      while i < |regs|
        invariant i <= |regs| && regs == was && CleanedFrom(was, fd, i, kept, hit)
        invariant host == if hit && fd.onHost then SetHost(hostWas, fd, left) else hostWas
      {
        CleanedStep(was, fd, i, kept, hit);
        if regs[i].key.fd == fd {
          hit := true;
          if fd.onHost { host := SetHost(host, fd, left); }
        } else {
          kept := kept + [regs[i]];
        }
        i := i + 1;
      }
      CleanedDone(was, fd, kept, hit);
      regs := kept;
      if old(Synced()) && answer == Applied { CleanupMatches(was, hostWas, fd); }
    }

    /** poll_wakeup, as far as it concerns this set: a fired oneshot hears nothing. */
    method Wakeup(fd: Fd, events: set<Bit>) returns (notified: bool)
      requires Valid()
      modifies this`regs
      ensures Valid() && regs == Woken(old(regs), fd, events)
      ensures notified == (pipeOpen && Listens(old(regs), fd))
      ensures old(Synced()) ==> Synced()
    {
      ghost var was, after := regs, Woken(regs, fd, events);
      notified := false;
      var i := 0;
      while i < |regs|
        invariant i <= |regs| == |was| && Patched(was, after, i, regs)
        invariant notified == (pipeOpen && HeardBefore(was, fd, i))
      {
        PatchStep(was, after, i, regs);
        if regs[i].key.fd == fd && !regs[i].fired {
          if EDGETRIGGERED in regs[i].types {
            regs := regs[i := regs[i].(triggered := regs[i].triggered - events)];
          }
          if pipeOpen { notified := true; }
        }
        i := i + 1;
      }
      HeardMeaning(was, fd, i);
      assert was[..i] == was;
      PatchDone(was, after, regs);
      WokenKeeps(was, fd, events, host);
    }

    /** poll_wait on one event from the host: every edge-triggered registration of the description. */
    method HostEvent(fd: Fd, events: set<Bit>)
      requires Valid()
      modifies this`regs
      ensures Valid() && regs == Signalled(old(regs), fd, events)
      ensures old(Synced()) ==> Synced()
    {
      ghost var was, after := regs, Signalled(regs, fd, events);
      var i := 0;
      while i < |regs|
        invariant i <= |regs| == |was| && Patched(was, after, i, regs)
      {
        PatchStep(was, after, i, regs);
        if regs[i].key.fd == fd && EDGETRIGGERED in regs[i].types {
          regs := regs[i := regs[i].(triggered := regs[i].triggered - events)];
        }
        i := i + 1;
      }
      PatchDone(was, after, regs);
      SignalledKeeps(was, fd, events, host);
    }

    /** The readiness scan of poll_wait with epoll_callback: reports until the batch is full, disables a
        reported oneshot in place and refreshes the host registration it shared. */
    method ScanReady(ready: Key -> set<Bit>, room: nat, answer: Answer) returns (events: seq<Event>)
      requires Valid()
      modifies this`regs, this`host
      ensures Valid() && (regs, events) == Scan(old(regs), ready, room)
      ensures old(Synced()) && answer == Applied ==> Synced()
    {
      ghost var was, after, all := regs, Scan(regs, ready, room).0, Scan(regs, ready, room).1;
      ScanUnique(was, ready, room);
      ScanBegins(was, ready, room);
      events := [];
      var i := 0;
      while i < |regs|
        invariant i <= |regs| == |was| == |after| && Patched(was, after, i, regs) && |events| <= room
        invariant ScanFrom(was, ready, room, i, after, all, events)
        invariant old(Synced()) && answer == Applied ==> HostMatches(regs, host)
      {
        PatchStep(was, after, i, regs);
        ScanStep(was, ready, room, i, after, all, events);
        var types := Pending(regs[i], ready(regs[i].key));
        if types != {} && |events| < room {
          events := events + [Event(regs[i].key, types, regs[i].info)];
          ghost var before := regs;
          regs := regs[i := Delivered(regs[i], types)];
          if old(Synced()) && answer == Applied { DeliveredMatches(before, i, types, host); }
          if ONESHOT in regs[i].types && regs[i].key.fd.onHost {
            ghost var hostWas := host;
            var ok := Refresh(regs[i].key.fd, answer);
            if old(Synced()) && ok { RefreshMatches(regs, hostWas, regs[i].key.fd); }
          }
        }
        i := i + 1;
      }
      PatchDone(was, after, regs);
      ScanDone(was, ready, room, after, all, events);
    }

    /** The start of poll_wait: the first waiter makes the pipe and registers it, or takes itself back. */
    method AcquireWait(pipeMade: bool, pipeRegistered: bool) returns (ok: bool)
      requires Valid()
      modifies this`waiters, this`pipeOpen
      ensures Valid() && ok == (old(waiters) > 0 || (pipeMade && pipeRegistered))
      ensures waiters == if ok then old(waiters) + 1 else old(waiters)
    {
      waiters := waiters + 1;
      if waiters == 1 {
        if !pipeMade {
          waiters := waiters - 1;
          return false;
        }
        pipeOpen := true;
        if !pipeRegistered {
          pipeOpen := false;
          waiters := waiters - 1;
          return false;
        }
      }
      return true;
    }

    /** poll_release_wait */
    method ReleaseWait()
      requires Valid() && waiters > 0
      modifies this`waiters, this`pipeOpen
      ensures Valid() && waiters == old(waiters) - 1
    {
      waiters := waiters - 1;
      if waiters == 0 { pipeOpen := false; }
    }
  }

  /** A list whose first i elements have been replaced. */
  ghost predicate Patched(a: seq<Reg>, b: seq<Reg>, i: nat, now: seq<Reg>) {
    |now| == |a| == |b| && i <= |a| && forall j :: 0 <= j < |a| ==> now[j] == if j < i then b[j] else a[j]
  }

  lemma {:induction false} PatchStep(a: seq<Reg>, b: seq<Reg>, i: nat, now: seq<Reg>)
    requires Patched(a, b, i, now) && i < |a|
    ensures now[i] == a[i] && Patched(a, b, i + 1, now[i := b[i]]) && (a[i] == b[i] ==> Patched(a, b, i + 1, now))
  {}

  lemma {:induction false} PatchDone(a: seq<Reg>, b: seq<Reg>, now: seq<Reg>)
    requires Patched(a, b, |a|, now)
    ensures now == b
  {}

  predicate Concerns(regs: seq<Reg>, fd: Fd) {
    exists i :: 0 <= i < |regs| && regs[i].key.fd == fd
  }

  /** An armed registration of the description. */
  predicate Listens(regs: seq<Reg>, fd: Fd) {
    exists i :: 0 <= i < |regs| && regs[i].key.fd == fd && !regs[i].fired
  }

  lemma {:induction false} ConcernsMore(regs: seq<Reg>, i: nat, fd: Fd)
    requires i < |regs|
    ensures Concerns(regs[..i + 1], fd) == (Concerns(regs[..i], fd) || regs[i].key.fd == fd)
  {
    assert regs[..i + 1] == regs[..i] + [regs[i]];
    if Concerns(regs[..i], fd) {
      var j :| 0 <= j < i && regs[..i][j].key.fd == fd;
      assert regs[..i + 1][j].key.fd == fd;
    } else if regs[i].key.fd == fd {
      assert regs[..i + 1][i].key.fd == fd;
    }
  }

  /** One of the first n registrations is armed on the description. */
  predicate HeardBefore(regs: seq<Reg>, fd: Fd, n: nat)
    requires n <= |regs|
  {
    n > 0 && (HeardBefore(regs, fd, n - 1) || (regs[n - 1].key.fd == fd && !regs[n - 1].fired))
  }

  lemma {:induction false} HeardMeaning(regs: seq<Reg>, fd: Fd, n: nat)
    requires n <= |regs|
    ensures HeardBefore(regs, fd, n) == Listens(regs[..n], fd)
    decreases n
  {
    if n > 0 {
      HeardMeaning(regs, fd, n - 1);
      var front := regs[..n - 1];
      assert regs[..n] == front + [regs[n - 1]];
      if Listens(front, fd) {
        var j :| 0 <= j < n - 1 && front[j].key.fd == fd && !front[j].fired;
        assert regs[..n][j] == front[j];
      } else if regs[n - 1].key.fd == fd && !regs[n - 1].fired {
        assert regs[..n][n - 1] == regs[n - 1];
      }
    }
  }

  lemma {:induction false} CleanupMatches(was: seq<Reg>, host: map<Fd, set<Bit>>, fd: Fd)
    requires HostMatches(was, host)
    ensures HostMatches(Cleaned(was, fd), if Concerns(was, fd) && fd.onHost then SetHost(host, fd, {}) else host)
  {
    forall other: Fd ensures Union(Cleaned(was, fd), other) == if other == fd then {} else Union(was, other) {
      UnionCleaned(was, fd, other);
    }
    if !Concerns(was, fd) { NobodyAsks(was, fd); }
    var after := if Concerns(was, fd) && fd.onHost then SetHost(host, fd, {}) else host;
    forall other: Fd | other.onHost ensures Registered(after, other) == Wanted(Cleaned(was, fd), other) {
      assert Registered(host, other) == Wanted(was, other);
    }
  }

  lemma {:induction false} NobodyAsks(regs: seq<Reg>, fd: Fd)
    requires !Concerns(regs, fd)
    ensures Union(regs, fd) == {}
  {
    if regs != [] {
      assert regs[0].key.fd != fd;
      forall i | 0 <= i < |regs[1..]| ensures regs[1..][i].key.fd != fd { assert regs[1..][i] == regs[i + 1]; }
      NobodyAsks(regs[1..], fd);
    }
  }

  lemma {:induction false} EdgesChangeNothingElse(a: seq<Reg>, b: seq<Reg>, host: map<Fd, set<Bit>>)
    requires SameKeys(a, b) && Unique(a)
    requires forall i :: 0 <= i < |a| ==> a[i].types == b[i].types && a[i].fired == b[i].fired
    ensures Unique(b) && (HostMatches(a, host) ==> HostMatches(b, host))
  {
    SameKeysUnique(a, b);
    forall fd: Fd ensures Union(a, fd) == Union(b, fd) { UnionSame(a, b, fd); }
    forall fd: Fd ensures Wanted(a, fd) == Wanted(b, fd) {}
  }

  lemma WokenKeeps(regs: seq<Reg>, fd: Fd, events: set<Bit>, host: map<Fd, set<Bit>>)
    requires Unique(regs)
    ensures Unique(Woken(regs, fd, events)) && (HostMatches(regs, host) ==> HostMatches(Woken(regs, fd, events), host))
  {
    EdgesChangeNothingElse(regs, Woken(regs, fd, events), host);
  }

  lemma SignalledKeeps(regs: seq<Reg>, fd: Fd, events: set<Bit>, host: map<Fd, set<Bit>>)
    requires Unique(regs)
    ensures Unique(Signalled(regs, fd, events)) && (HostMatches(regs, host) ==> HostMatches(Signalled(regs, fd, events), host))
  {
    EdgesChangeNothingElse(regs, Signalled(regs, fd, events), host);
  }

  /** The walk of poll_cleanup_fd stands before registration i. */
  ghost predicate CleanedFrom(regs: seq<Reg>, fd: Fd, i: nat, kept: seq<Reg>, hit: bool) {
    i <= |regs| && kept + Cleaned(regs[i..], fd) == Cleaned(regs, fd) && hit == Concerns(regs[..i], fd)
  }

  lemma {:induction false} CleanedStep(regs: seq<Reg>, fd: Fd, i: nat, kept: seq<Reg>, hit: bool)
    requires i < |regs| && CleanedFrom(regs, fd, i, kept, hit)
    ensures if regs[i].key.fd == fd then CleanedFrom(regs, fd, i + 1, kept, true)
            else CleanedFrom(regs, fd, i + 1, kept + [regs[i]], hit)
  {
    ConcernsMore(regs, i, fd);
    var rest := Cleaned(regs[i + 1..], fd);
    assert regs[i..][0] == regs[i] && regs[i..][1..] == regs[i + 1..];
    if regs[i].key.fd == fd {
      assert Cleaned(regs[i..], fd) == rest;
    } else {
      assert Cleaned(regs[i..], fd) == [regs[i]] + rest;
      assert kept + ([regs[i]] + rest) == kept + [regs[i]] + rest;
    }
  }

  lemma {:induction false} CleanedDone(regs: seq<Reg>, fd: Fd, kept: seq<Reg>, hit: bool)
    requires CleanedFrom(regs, fd, |regs|, kept, hit)
    ensures kept == Cleaned(regs, fd) && hit == Concerns(regs, fd)
  {
    assert regs[..|regs|] == regs && regs[|regs|..] == [];
  }

  lemma ScanUnique(regs: seq<Reg>, ready: Key -> set<Bit>, room: nat)
    requires Unique(regs)
    ensures Unique(Scan(regs, ready, room).0)
  {
    ScanKeys(regs, ready, room);
    SameKeysUnique(regs, Scan(regs, ready, room).0);
  }

  /** The scan stands before registration i, having reported `events`. */
  ghost predicate ScanFrom(regs: seq<Reg>, ready: Key -> set<Bit>, room: nat, i: nat, after: seq<Reg>, all: seq<Event>, events: seq<Event>) {
    && i <= |regs| == |after| && |events| <= room
    && var rest := Scan(regs[i..], ready, room - |events|);
       after[i..] == rest.0 && all == events + rest.1
  }

  lemma {:induction false} ScanBegins(regs: seq<Reg>, ready: Key -> set<Bit>, room: nat)
    ensures ScanFrom(regs, ready, room, 0, Scan(regs, ready, room).0, Scan(regs, ready, room).1, [])
  {
    assert regs[0..] == regs;
  }

  lemma {:induction false} ScanDone(regs: seq<Reg>, ready: Key -> set<Bit>, room: nat, after: seq<Reg>, all: seq<Event>, events: seq<Event>)
    requires ScanFrom(regs, ready, room, |regs|, after, all, events)
    ensures all == events
  {
    assert regs[|regs|..] == [];
  }

  lemma {:induction false} ScanStep(regs: seq<Reg>, ready: Key -> set<Bit>, room: nat, i: nat, after: seq<Reg>, all: seq<Event>, events: seq<Event>)
    requires i < |regs| && ScanFrom(regs, ready, room, i, after, all, events)
    ensures var types := Pending(regs[i], ready(regs[i].key));
            if types != {} && |events| < room
            then after[i] == Delivered(regs[i], types)
                 && ScanFrom(regs, ready, room, i + 1, after, all, events + [Event(regs[i].key, types, regs[i].info)])
            else after[i] == regs[i] && ScanFrom(regs, ready, room, i + 1, after, all, events)
  {
    assert regs[i..][0] == regs[i] && regs[i..][1..] == regs[i + 1..];
    assert after[i..][0] == after[i] && after[i..][1..] == after[i + 1..];
  }

  /** A delivery leaves the other descriptions' host registrations right, and its own unless it was a
      oneshot. */
  lemma {:induction false} DeliveredMatches(regs: seq<Reg>, i: nat, types: set<Bit>, host: map<Fd, set<Bit>>)
    requires i < |regs| && HostMatches(regs, host)
    ensures var after := regs[i := Delivered(regs[i], types)];
            && MatchesBut(after, host, regs[i].key.fd)
            && (ONESHOT !in regs[i].types || !regs[i].key.fd.onHost ==> HostMatches(after, host))
  {
    var after := regs[i := Delivered(regs[i], types)];
    forall other: Fd | other != regs[i].key.fd ensures Union(regs, other) == Union(after, other) {
      UnionSame(regs, after, other);
    }
    ChangeSparesOthers(regs, after, host, regs[i].key.fd);
    if ONESHOT !in regs[i].types {
      forall fd: Fd ensures Wanted(regs, fd) == Wanted(after, fd) { UnionSame(regs, after, fd); }
    }
  }

  // ---------------------------------------------------------------------------------------------
  // epoll_ctl and epoll_wait
  // ---------------------------------------------------------------------------------------------

  datatype CtlOp = CtlAdd | CtlDel | CtlMod | CtlOther

  /** What epoll_ctl finds out about the descriptor it is given. */
  datatype Target = Target(key: Key, isEpoll: bool, isFileOrDirectory: bool)

  /** The call is not refused before it reads its event. */
  predicate TakesEvent(op: CtlOp, target: Target) {
    op == CtlMod || (op == CtlAdd && !target.isEpoll && !target.isFileOrDirectory)
  }

  /** sys_epoll_ctl after the descriptors were found. `event` is None when it cannot be read. Only an
      accepted call reaches the set. */
  method EpollCtl(poll: PollSet, op: CtlOp, target: Target, event: Option<(set<Bit>, nat)>, first: Answer, second: Answer)
    returns (err: Error)
    requires poll.Valid()
    modifies poll`regs, poll`host
    ensures poll.Valid()
    ensures err == EINVAL <==> op == CtlOther || (op == CtlAdd && target.isEpoll)
    ensures err == EPERM <==> op == CtlAdd && !target.isEpoll && target.isFileOrDirectory
    ensures err == EFAULT <==> event == None && TakesEvent(op, target)
    ensures err == EEXIST <==> op == CtlAdd && TakesEvent(op, target) && event.Some? && Has(old(poll.regs), target.key)
    ensures err == ENOENT <==> (op == CtlDel || (op == CtlMod && event.Some?)) && !Has(old(poll.regs), target.key)
    ensures err == EHOST <==>
              && TakesEvent(op, target) && event.Some? && target.key.fd.onHost && first.Refused?
              && (op == CtlAdd <==> !Has(old(poll.regs), target.key))
    ensures err in {EINVAL, EPERM, EFAULT} ==> poll.regs == old(poll.regs) && poll.host == old(poll.host)
    ensures err == Ok && op != CtlDel ==> event.Some?
    ensures err == Ok ==> poll.regs == match op
      case CtlAdd => [Reg(target.key, event.value.0, event.value.1, {}, false)] + old(poll.regs)
      case CtlMod => Change(old(poll.regs), target.key, event.value.0, event.value.1)
      case CtlDel => Remove(old(poll.regs), target.key)
      case CtlOther => poll.regs
    ensures err != Ok ==> poll.regs == old(poll.regs)
  {
    if op == CtlAdd && target.isEpoll { return EINVAL; }
    if op == CtlAdd && target.isFileOrDirectory { return EPERM; }
    if op == CtlDel {
      if !Has(poll.regs, target.key) { NothingRemoved(poll.regs, target.key); }
      err := poll.Del(target.key, first);
      return;
    }
    if op != CtlAdd && op != CtlMod { return EINVAL; }
    if event == None { return EFAULT; }
    if op == CtlAdd {
      err := poll.Add(target.key, event.value.0, event.value.1, first, second);
    } else {
      err := poll.Mod(target.key, event.value.0, event.value.1, first, second);
    }
  }

  /** The batch of sys_epoll_wait: the guest's bound, clamped, or EINVAL. */
  function Batch(maxEvents: int): Option<nat> {
    if Clamped(maxEvents) <= 0 then None else Some(Clamped(maxEvents))
  }

  function Clamped(maxEvents: int): int {
    if maxEvents > EPOLL_MAX_EVENTS then EPOLL_MAX_EVENTS else maxEvents
  }

  /** One pass of epoll_wait over the set: never more than was asked for, nor more than 1024, and what does
      not fit stays as it was. */
  method EpollWaitPass(poll: PollSet, ready: Key -> set<Bit>, maxEvents: int, answer: Answer) returns (events: Option<seq<Event>>)
    requires poll.Valid()
    modifies poll`regs, poll`host
    ensures poll.Valid() && (events == None <==> maxEvents <= 0)
    ensures events.Some? ==> |events.value| <= maxEvents && |events.value| <= EPOLL_MAX_EVENTS
    ensures events.Some? ==> maxEvents > 0 && (poll.regs, events.value) == Scan(old(poll.regs), ready, if maxEvents > 1024 then 1024 else maxEvents)
    ensures events == None ==> poll.regs == old(poll.regs) && poll.host == old(poll.host)
  {
    var batch := Batch(maxEvents);
    if batch == None { return None; }
    var taken := poll.ScanReady(ready, batch.value, answer);
    return Some(taken);
  }

  lemma {:induction false} NothingRemoved(regs: seq<Reg>, key: Key)
    requires !Has(regs, key)
    ensures Remove(regs, key) == regs
  {
    if regs != [] {
      assert regs[0].key != key;
      forall i | 0 <= i < |regs[1..]| ensures regs[1..][i].key != key { assert regs[1..][i] == regs[i + 1]; }
      NothingRemoved(regs[1..], key);
    }
  }
}
