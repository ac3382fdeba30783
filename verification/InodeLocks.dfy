/** The inode's lock list as the object that fcntl edits (fs/lock.c), over the functions of FileLocks. */
module InodeLocks {
  import opened FileLocks

  const EBADF: int := -9
  const EAGAIN: int := -11
  const EINVAL: int := -22

  const F_RDLCK: int := 0
  const F_WRLCK: int := 1
  const F_UNLCK: int := 2

  const LSEEK_SET: int := 0
  const LSEEK_CUR: int := 1
  const LSEEK_END: int := 2

  /** The guest's struct flock. */
  datatype Flock = Flock(ltype: int, whence: int, start: Offset, len: Offset, pid: int)

  datatype AccessMode = ReadOnly | WriteOnly | ReadWrite

  /** What the call reads of the descriptor: its access mode and the answers of lseek and fstat. */
  datatype FdView = FdView(mode: AccessMode, hasLseek: bool, lseek: Offset, fstat: int, size: Offset)

  datatype Result<T> = Ok(value: T) | Err(code: int)

  function TypeCode(t: LockType): int {
    match t case RdLck => F_RDLCK case WrLck => F_WRLCK case UnLck => F_UNLCK
  }

  function TypeOf(code: int): LockType
    requires code in {F_RDLCK, F_WRLCK, F_UNLCK}
  {
    if code == F_RDLCK then RdLck else if code == F_WRLCK then WrLck else UnLck
  }

  /** The offset l_start counts from. */
  function BaseOffset(fd: FdView, whence: int): Result<Offset> {
    if whence == LSEEK_SET then Ok(0)
    else if whence == LSEEK_CUR then
      if !fd.hasLseek then Ok(0) else if fd.lseek < 0 then Err(fd.lseek) else Ok(fd.lseek)
    else if whence == LSEEK_END then
      if fd.fstat < 0 then Err(fd.fstat) else Ok(fd.size)
    else Err(EINVAL)
  }

  const TWO_64: int := 0x1_0000_0000_0000_0000

  predicate OffT(x: int) { OFF_T_MIN <= x <= OFF_T_MAX }

  /** What off_t keeps of the sum of two of its values. */
  function Wrap(x: int): Offset
    requires -TWO_64 <= x < TWO_64
  {
    if x > OFF_T_MAX then x - TWO_64 else if x < OFF_T_MIN then x + TWO_64 else x
  }

  function FromFlock(fd: FdView, f: Flock, owner: Owner, pid: int): Result<FileLock>
    requires f.ltype in {F_RDLCK, F_WRLCK, F_UNLCK}
  {
    match BaseOffset(fd, f.whence)
    case Err(e) => Err(e)
    case Ok(base) =>
      var at := Wrap(f.start + base);
      var (start, end) :=
        if f.len > 0 then (at, Wrap(at + f.len - 1))
        else if f.len < 0 then (Wrap(Wrap(at - 1) + f.len + 1), Wrap(at - 1))
        else (at, OFF_T_MAX);
      Ok(FileLock(start, end, TypeOf(f.ltype), owner, pid))
  }

  function ToFlock(lock: FileLock): Flock {
    Flock(TypeCode(lock.ltype), LSEEK_SET, lock.start,
          if lock.end != OFF_T_MAX then Wrap(lock.end - lock.start + 1) else 0, lock.pid)
  }

  /** The bytes a struct flock names, as fcntl() defines them: l_len bytes from the base when positive,
      -l_len bytes before it when negative, and all bytes from the base on when zero. */
  predicate Names(base: int, f: Flock, off: int) {
    var at := base + f.start;
    if f.len > 0 then at <= off < at + f.len
    else if f.len < 0 then at + f.len <= off < at
    else at <= off <= OFF_T_MAX
  }

  /** The first and the last byte named are offsets. */
  predicate Fits(base: int, f: Flock) {
    var at := base + f.start;
    if f.len > 0 then OffT(at) && OffT(at + f.len - 1)
    else if f.len < 0 then OffT(at + f.len) && OffT(at - 1)
    else OffT(at)
  }

  /** The base is 0, the position or the size; the position of a descriptor without one is 0. The lock
      covers the bytes named exactly when the first and the last of them are offsets. */
  lemma FlockDenotes(fd: FdView, f: Flock, owner: Owner, pid: int)
    requires f.ltype in {F_RDLCK, F_WRLCK, F_UNLCK}
    ensures var r := FromFlock(fd, f, owner, pid);
            && (f.whence == LSEEK_SET ==> BaseOffset(fd, f.whence) == Ok(0))
            && (f.whence == LSEEK_CUR && fd.hasLseek && fd.lseek >= 0 ==> BaseOffset(fd, f.whence) == Ok(fd.lseek))
            && (f.whence == LSEEK_CUR && !fd.hasLseek ==> BaseOffset(fd, f.whence) == Ok(0))
            && (f.whence == LSEEK_END && fd.fstat >= 0 ==> BaseOffset(fd, f.whence) == Ok(fd.size))
            && (r.Err? <==> f.whence !in {LSEEK_SET, LSEEK_CUR, LSEEK_END}
                            || (f.whence == LSEEK_CUR && fd.hasLseek && fd.lseek < 0) || (f.whence == LSEEK_END && fd.fstat < 0))
            && match BaseOffset(fd, f.whence)
            case Err(e) => r == Err(e)
            case Ok(base) =>
              && r.Ok? && r.value.owner == owner && r.value.pid == pid
              && (r.value.ltype == RdLck <==> f.ltype == 0) && (r.value.ltype == WrLck <==> f.ltype == 1)
              && (r.value.ltype == UnLck <==> f.ltype == 2)
              && ((forall off :: r.value.Covers(off) <==> Names(base, f, off)) <==> Fits(base, f))
  {
    match BaseOffset(fd, f.whence)
    case Err(e) =>
    case Ok(base) =>
      var lock, at := FromFlock(fd, f, owner, pid).value, base + f.start;
      var first := if f.len < 0 then at + f.len else at;
      var last := if f.len > 0 then at + f.len - 1 else if f.len < 0 then at - 1 else OFF_T_MAX;
      assert lock.Covers(first) ==> OffT(first);
      assert lock.Covers(last) ==> OffT(last);
      assert first <= last ==> Names(base, f, first) && Names(base, f, last);
      assert f.len == 0 ==> lock.Covers(OFF_T_MAX);
  }

  /** No sum in the call leaves off_t, except a step below the lowest offset and back. */
  predicate NoOverflow(base: Offset, f: Flock) {
    var at := Wrap(f.start + base);
    (f.len > 0 ==> at + f.len - 1 <= OFF_T_MAX) && (f.len < 0 ==> at + f.len >= OFF_T_MIN || at == OFF_T_MIN)
  }

  /** The lock ends at or after its start exactly when its sums do not leave off_t. */
  lemma ProperExactly(fd: FdView, f: Flock, owner: Owner, pid: int)
    requires f.ltype in {F_RDLCK, F_WRLCK, F_UNLCK} && BaseOffset(fd, f.whence).Ok?
    ensures var lock := FromFlock(fd, f, owner, pid).value;
            lock.start <= lock.end <==> NoOverflow(BaseOffset(fd, f.whence).value, f)
  {}

  /** A request that ends before it starts can spoil a list: the empty one if it locks, one of the requester's
      own locks around its ends if it unlocks. */
  lemma {:induction false} ImproperSpoils(r: FileLock) returns (locks: seq<FileLock>)
    requires r.start > r.end && (r.ltype == UnLck ==> r.end > OFF_T_MIN)
    ensures Inv(locks) && High(locks) && !Inv(Apply(locks, SetLock(r)))
  {
    if r.ltype != UnLck {
      locks := [];
      assert Place([], r).locks == [r];
      assert r in [r] && !Proper(r);
    } else {
      var own := FileLock(r.end, r.start, RdLck, r.owner, 0);
      locks := [own];
      var left, right := own.(end := r.start - 1), own.(start := r.end + 1);
      assert locks[0..1] == locks && locks[..0] == [] && locks[1..] == [];
      assert Sweep(locks[1..], r).kept == [];
      assert Place(locks, r).locks == [left, right];
      assert !Pair([left, right][0], [left, right][1]);
    }
  }

  /** A lock at the lowest offset is taken for the neighbour of one at the highest and merged with it, over
      whatever another owner holds between them. */
  lemma {:induction false} SeamSpoils(r: FileLock) returns (locks: seq<FileLock>)
    requires r.ltype != UnLck && r.start == OFF_T_MIN && r.end < OFF_T_MAX - 1
    ensures Inv(locks) && High(locks) && !Blocked(locks, r) && !Inv(Apply(locks, SetLock(r)))
  {
    var own := FileLock(OFF_T_MAX, OFF_T_MAX, r.ltype, r.owner, 0);
    var other := FileLock(r.end + 1, r.end + 1, if r.ltype == RdLck then WrLck else RdLck, r.owner + 1, 0);
    locks := [own, other];
    var merged := r.(end := OFF_T_MAX);
    assert OwnStart(locks, r.owner, 0) == 0 && OwnEnd(locks, r.owner, 1) == 1 && OwnEnd(locks, r.owner, 0) == 1;
    assert locks[0..1] == [own] && locks[1..] == [other] && [own][1..] == [] && locks[..0] == [];
    assert Sweep([], merged) == Swept([], merged, 0);
    assert Place(locks, r).locks == [merged, other];
    assert !Pair([merged, other][0], [merged, other][1]);
  }

  /** What leaves every good list good: a request that does not end before it starts and whose neighbours are
      next to it, or an unlock that ends at the lowest offset, and so before every lock. */
  predicate Harmless(r: FileLock) {
    (r.start <= r.end && Safe(r)) || (r.ltype == UnLck && r.end == OFF_T_MIN)
  }

  lemma {:induction false} NothingMet(own: seq<FileLock>, r: FileLock)
    requires r.ltype == UnLck && AllLocks(own) && forall x :: x in own ==> !Overlap(x, r)
    ensures Sweep(own, r) == Swept(own, r, 0)
  {
    if own != [] {
      assert own[0] in own && forall x :: x in own[1..] ==> x in own;
      NothingMet(own[1..], r);
      assert own == [own[0]] + own[1..];
    }
  }

  /** An unlock that ends at the lowest offset comes before every lock. */
  lemma {:induction false} LowUnlockChangesNothing(locks: seq<FileLock>, r: FileLock)
    requires Inv(locks) && High(locks) && r.ltype == UnLck && r.end == OFF_T_MIN
    ensures Place(locks, r).locks == locks
  {
    InvIsSound(locks);
    var a, own, b := CutSound(locks, r);
    NothingMet(own, r);
    assert Middle(own, r) == own;
  }

  lemma {:induction false} HarmlessKeepsInv(locks: seq<FileLock>, r: FileLock)
    requires Inv(locks) && High(locks) && Harmless(r)
    ensures Inv(Apply(locks, SetLock(r)))
  {
    if !Blocked(locks, r) {
      if r.start <= r.end && Safe(r) {
        PlaceKeepsInv(locks, r);
      } else {
        LowUnlockChangesNothing(locks, r);
      }
    }
  }

  /** Over lists without a lock at the lowest offset, a request keeps every good list good exactly when it is
      harmless. */
  lemma {:induction false} RequestKeepsInvExactly(r: FileLock)
    ensures (forall locks :: Inv(locks) && High(locks) ==> Inv(Apply(locks, SetLock(r)))) <==> Harmless(r)
  {
    if Harmless(r) {
      forall locks | Inv(locks) && High(locks) ensures Inv(Apply(locks, SetLock(r))) { HarmlessKeepsInv(locks, r); }
    } else if r.start > r.end {
      var locks := ImproperSpoils(r);
      assert Inv(locks) && High(locks) && !Inv(Apply(locks, SetLock(r)));
    } else {
      var locks := SeamSpoils(r);
      assert Inv(locks) && High(locks) && !Inv(Apply(locks, SetLock(r)));
    }
  }

  /** F_SETLK does so exactly when its sums do not leave off_t and it does not lock from the lowest offset on,
      short of almost everything; or it unlocks up to the lowest offset. */
  lemma {:induction false} SetlkKeepsInvExactly(fd: FdView, f: Flock, owner: Owner, pid: int)
    requires f.ltype in {F_RDLCK, F_WRLCK, F_UNLCK} && BaseOffset(fd, f.whence).Ok?
    ensures var lock := FromFlock(fd, f, owner, pid).value;
            (forall locks :: Inv(locks) && High(locks) ==> Inv(Apply(locks, SetLock(lock))))
            <==> || (NoOverflow(BaseOffset(fd, f.whence).value, f)
                     && (f.ltype == F_UNLCK || lock.start > OFF_T_MIN || lock.end >= OFF_T_MAX - 1))
                 || (f.ltype == F_UNLCK && lock.end == OFF_T_MIN)
  {
    ProperExactly(fd, f, owner, pid);
    RequestKeepsInvExactly(FromFlock(fd, f, owner, pid).value);
  }

  /** Three calls from an empty list: one owner reads from byte 100 on, another writes 50 to 60, the first
      reads ten bytes from the lowest offset. Now both hold byte 55. */
  lemma {:induction false} SeamRun(fd: FdView, pid: int)
    ensures var tail := FromFlock(fd, Flock(F_RDLCK, LSEEK_SET, 100, 0, pid), 1, pid);
            var middle := FromFlock(fd, Flock(F_WRLCK, LSEEK_SET, 50, 11, pid), 2, pid);
            var low := FromFlock(fd, Flock(F_RDLCK, LSEEK_SET, OFF_T_MIN, 10, pid), 1, pid);
            && tail.Ok? && middle.Ok? && low.Ok?
            && var before := Run([], [SetLock(tail.value), SetLock(middle.value)]);
               Inv(before) && High(before) && !Blocked(before, low.value)
               && var after := Apply(before, SetLock(low.value));
                  TypeAt(after, 1, 55) == RdLck && TypeAt(after, 2, 55) == WrLck && !Inv(after)
  {
    var tail, middle := FileLock(100, OFF_T_MAX, RdLck, 1, pid), FileLock(50, 60, WrLck, 2, pid);
    var low := FileLock(OFF_T_MIN, OFF_T_MIN + 9, RdLck, 1, pid);
    TwoOwners(tail, middle);
    var before, merged := [tail, middle], low.(end := OFF_T_MAX);
    assert OwnStart(before, 1, 0) == 0 && OwnEnd(before, 1, 1) == 1 && OwnEnd(before, 1, 0) == 1;
    assert before[0..1] == [tail] && before[1..] == [middle] && [tail][1..] == [] && before[..0] == [];
    assert Sweep([], merged) == Swept([], merged, 0);
    assert Place(before, low).locks == [merged, middle];
    assert [merged, middle][1..] == [middle];
    assert !Pair([merged, middle][0], [merged, middle][1]);
  }

  /** The list two owners make one after the other. */
  lemma {:induction false} TwoOwners(a: FileLock, b: FileLock)
    requires a.owner == 1 && b.owner == 2 && Proper(a) && Proper(b) && !Overlap(a, b)
    ensures Run([], [SetLock(a), SetLock(b)]) == [a, b]
  {
    assert Place([], a).locks == [a];
    assert OwnStart([a], 2, 1) == 1 && OwnStart([a], 2, 0) == 1 && OwnEnd([a], 2, 1) == 1;
    assert [a][1..1] == [] && [a][..1] == [a] && [a][1..] == [];
    assert Place([a], b).locks == [a, b];
    var ops := [SetLock(a), SetLock(b)];
    assert ops[1..] == [SetLock(b)] && ops[1..][1..] == [];
    assert Run([a, b], []) == [a, b];
    assert Run([a], ops[1..]) == Run([a, b], ops[1..][1..]);
  }

  /** A write lock on the longest stretch from byte 5 on: granted, in the list, and on no byte. */
  lemma OverflowedRequest(fd: FdView, owner: Owner, pid: int, off: int)
    ensures var r := FromFlock(fd, Flock(F_WRLCK, LSEEK_SET, 5, OFF_T_MAX, pid), owner, pid);
            && r == Ok(FileLock(5, OFF_T_MIN + 3, WrLck, owner, pid))
            && Apply([], SetLock(r.value)) == [r.value] && TypeAt([r.value], owner, off) == UnLck
  {}

  /** A lock written out by F_GETLK and read back names the same bytes, type and holder exactly when its
      length is an off_t value; one up to the last offset has length zero. */
  lemma FlockRoundTrip(fd: FdView, lock: FileLock)
    requires lock.start <= lock.end
    ensures FromFlock(fd, ToFlock(lock), lock.owner, lock.pid) == Ok(lock)
            <==> lock.end == OFF_T_MAX || lock.end - lock.start + 1 <= OFF_T_MAX
    ensures ToFlock(lock).whence == LSEEK_SET && ToFlock(lock).pid == lock.pid
  {}

  /** Index of the first lock that conflicts, or the length of the list. */
  function FirstConflict(locks: seq<FileLock>, r: FileLock): (i: nat)
    ensures i <= |locks|
    ensures i < |locks| ==> Conflict(locks[i], r)
    ensures forall j :: 0 <= j < i ==> !Conflict(locks[j], r)
  {
    if locks == [] || Conflict(locks[0], r) then 0 else 1 + FirstConflict(locks[1..], r)
  }

  function Joined(kept: seq<FileLock>, signals: nat, rest: Swept): Swept {
    Swept(kept + rest.kept, rest.request, signals + rest.signals)
  }

  lemma JoinNothing(whole: Swept)
    ensures Joined([], 0, whole) == whole
  {
    assert [] + whole.kept == whole.kept;
  }

  lemma {:induction false} SweepSameType(own: seq<FileLock>, r: FileLock)
    ensures Sweep(own, r).request.ltype == r.ltype
  {
    if own != [] { SweepSameType(own[1..], SweepOne(own[0], r).request); }
  }

  datatype Cut = Cut(before: seq<FileLock>, own: seq<FileLock>, after: seq<FileLock>)

  /** The list in three parts: up to the first lock of `o`, the run of its locks, and the rest. */
  function CutAtGroup(locks: seq<FileLock>, o: Owner): (c: Cut)
    ensures locks == c.before + c.own + c.after
    ensures NoneOwnedBy(c.before, o) && AllOwnedBy(c.own, o)
    ensures c.after != [] ==> c.own != [] && c.after[0].owner != o
  {
    var k := OwnStart(locks, o, 0);
    var m := OwnEnd(locks, o, k);
    Cut(locks[..k], locks[k..m], locks[m..])
  }

  /** Whose lock is at position `i`: nobody's before the group, the owner's in it, another's after it. */
  lemma OwnerAt(list: seq<FileLock>, before: seq<FileLock>, kept: seq<FileLock>, own: seq<FileLock>,
                after: seq<FileLock>, o: Owner, i: nat)
    requires list == before + kept + own + after && i < |list|
    requires NoneOwnedBy(before, o) && AllOwnedBy(own, o) && (after != [] ==> after[0].owner != o)
    requires i < |before| || i == |before| + |kept|
    ensures i < |before| ==> list[i].owner != o
    ensures i == |before| + |kept| ==> (list[i].owner == o <==> own != [])
  {
    if i == |before| + |kept| {
      assert own != [] ==> list[i] == own[0];
      assert own == [] ==> list[i] == after[0];
    } else {
      assert list[i] == before[i];
    }
  }

  lemma AtCursor(list: seq<FileLock>, before: seq<FileLock>, kept: seq<FileLock>, own: seq<FileLock>,
                 after: seq<FileLock>, o: Owner)
    requires list == before + kept + own + after && own != [] && AllOwnedBy(own, o)
    ensures var i := |before| + |kept|;
            list[i] == own[0] && list[..i] == before + kept && list[i + 1..] == own[1..] + after
    ensures AllOwnedBy(own[1..], o)
  {}

  lemma Regroup(a: seq<FileLock>, b: seq<FileLock>, c: seq<FileLock>, d: seq<FileLock>, e: seq<FileLock>)
    ensures (a + b) + c + (d + e) == a + (b + c) + d + e
  {}

  lemma JoinStep(kept: seq<FileLock>, signals: nat, step: Swept, rest: Swept)
    ensures Joined(kept, signals, Joined(step.kept, step.signals, rest))
         == Joined(kept + step.kept, signals + step.signals, rest)
  {
    assert kept + (step.kept + rest.kept) == (kept + step.kept) + rest.kept;
  }

  class InodeData {
    var posixLocks: seq<FileLock>
    var unlockSignals: nat // times the waiters on the inode were notified

    constructor ()
      ensures posixLocks == [] && unlockSignals == 0
    {
      posixLocks, unlockSignals := [], 0;
    }

    method Test(request: FileLock) returns (i: nat)
      ensures i == FirstConflict(posixLocks, request)
    {
      i := 0;
      while i < |posixLocks|
        invariant i <= |posixLocks|
        invariant forall j :: 0 <= j < i ==> !Conflict(posixLocks[j], request)
      {
        if Conflict(posixLocks[i], request) { break; }
        i := i + 1;
      }
      ghost var f := FirstConflict(posixLocks, request);
      assert f < |posixLocks| ==> Conflict(posixLocks[f], request);
    }

    /** The body of the pass, on the requester's lock at `i`: edits the list there, grows the request
        on a merge, and answers where the walk goes on (a second half split off is not visited). */
    method EditAt(i: nat, request0: FileLock) returns (next: nat, request: FileLock)
      requires i < |posixLocks| && posixLocks[i].owner == request0.owner
      modifies this
      ensures var step := SweepOne(old(posixLocks[i]), request0);
        && request == step.request
        && posixLocks == old(posixLocks)[..i] + step.kept + old(posixLocks)[i + 1..]
        && next == i + |step.kept|
        && unlockSignals == old(unlockSignals) + step.signals
    {
      request, next := request0, i + 1;
      var lock := posixLocks[i];
      if request.ltype == lock.ltype {
        if Overlap(lock, request) || Adjacent(request, lock) {
          if lock.start < request.start { request := request.(start := lock.start); }
          if lock.end > request.end { request := request.(end := lock.end); }
          posixLocks, next := posixLocks[..i] + posixLocks[i + 1..], i;
        }
      } else if Overlap(lock, request) {
        unlockSignals := unlockSignals + 1;
        if request.start > lock.start && request.end < lock.end {
          var lock2 := lock.(start := request.end + 1);
          posixLocks := posixLocks[..i] + [lock.(end := request.start - 1), lock2] + posixLocks[i + 1..];
          next := i + 2;
        } else if request.start <= lock.start && request.end >= lock.end {
          posixLocks, next := posixLocks[..i] + posixLocks[i + 1..], i;
        } else if lock.start < request.start {
          posixLocks := posixLocks[i := lock.(end := request.start - 1)];
        } else if lock.end > request.end {
          posixLocks := posixLocks[i := lock.(start := request.end + 1)];
        }
      }
    }

    /** The same edit, seen from the cut of the list into the parts around and inside the group. */
    method EditInGroup(i: nat, request0: FileLock, ghost before: seq<FileLock>, ghost kept0: seq<FileLock>,
                       ghost own0: seq<FileLock>, ghost after: seq<FileLock>, ghost sig: nat)
      returns (next: nat, request: FileLock, ghost kept: seq<FileLock>, ghost own: seq<FileLock>)
      requires own0 != [] && AllOwnedBy(own0, request0.owner) && sig <= unlockSignals
      requires posixLocks == before + kept0 + own0 + after && i == |before| + |kept0|
      modifies this
      ensures posixLocks == before + kept + own + after && next == |before| + |kept| && |own| < |own0|
      ensures AllOwnedBy(own, request0.owner) && request.owner == request0.owner && sig <= unlockSignals
      ensures Joined(kept, unlockSignals - sig, Sweep(own, request))
           == Joined(kept0, old(unlockSignals) - sig, Sweep(own0, request0))
    {
      AtCursor(posixLocks, before, kept0, own0, after, request0.owner);
      ghost var step := SweepOne(own0[0], request0);
      JoinStep(kept0, unlockSignals - sig, step, Sweep(own0[1..], step.request));
      Regroup(before, kept0, step.kept, own0[1..], after);
      next, request := EditAt(i, request0);
      kept, own := kept0 + step.kept, own0[1..];
    }

    /** The pass over the whole list, with its early break; `i` is where the request is to be linked. */
    method SweepList(request0: FileLock) returns (i: nat, request: FileLock)
      modifies this
      ensures var g := CutAtGroup(old(posixLocks), request0.owner);
        var whole := Sweep(g.own, request0);
        && request == whole.request && i == |g.before| + |whole.kept|
        && posixLocks == g.before + whole.kept + g.after
        && unlockSignals == old(unlockSignals) + whole.signals
    {
      ghost var sig := unlockSignals;
      ghost var g := CutAtGroup(posixLocks, request0.owner);
      ghost var kept, own := [], g.own; // what the requester's locks so far have become, and those to come
      JoinNothing(Sweep(g.own, request0));
      assert g.before + kept == g.before;
      var found := false;
      i, request := 0, request0;
      while i < |posixLocks|
        invariant request.owner == request0.owner && i <= |posixLocks| && unlockSignals >= sig
        invariant AllOwnedBy(own, request.owner)
        invariant posixLocks == g.before + kept + own + g.after
        invariant !found ==> i <= |g.before| && kept == [] && (own == [] ==> g.after == [])
        invariant found ==> i == |g.before| + |kept|
        invariant Joined(kept, unlockSignals - sig, Sweep(own, request)) == Sweep(g.own, request0)
      {
        OwnerAt(posixLocks, g.before, kept, own, g.after, request.owner, i);
        if !found {
          if posixLocks[i].owner != request.owner {
            i := i + 1;
            continue;
          }
          found := true;
        } else if posixLocks[i].owner != request.owner {
          break;
        }
        i, request, kept, own := EditInGroup(i, request, g.before, kept, own, g.after, sig);
      }
      assert own == [] && kept + own == kept;
    }

    method Acquire(request0: FileLock) returns (granted: bool)
      modifies this
      ensures granted == !Blocked(old(posixLocks), request0)
      ensures !granted ==> posixLocks == old(posixLocks) && unlockSignals == old(unlockSignals)
      ensures granted ==>
        && posixLocks == Place(old(posixLocks), request0).locks
        && unlockSignals == old(unlockSignals) + Place(old(posixLocks), request0).signals
    {
      if request0.ltype != UnLck {
        var c := Test(request0);
        if c < |posixLocks| { return false; }
      }
      PlaceParts(posixLocks, request0);
      ghost var g := CutAtGroup(posixLocks, request0.owner);
      var i, request := SweepList(request0);
      SweepSameType(g.own, request0);
      assert posixLocks[i..] == g.after;
      if request.ltype != UnLck {
        posixLocks := posixLocks[..i] + [request] + posixLocks[i..];
      }
      granted := true;
    }

    method RemoveOwnedBy(owner: Owner)
      modifies this`posixLocks
      ensures posixLocks == Without(old(posixLocks), owner)
    {
      ghost var rest: seq<FileLock> := [];
      ghost var tail := posixLocks;
      var i := 0;
      while i < |posixLocks|
        invariant i == |rest| && posixLocks == rest + tail
        invariant Without(old(posixLocks), owner) == rest + Without(tail, owner)
        decreases |tail|
      {
        assert posixLocks[i] == tail[0];
        if posixLocks[i].owner == owner {
          posixLocks := posixLocks[..i] + posixLocks[i + 1..];
          assert posixLocks == rest + tail[1..];
        } else {
          assert rest + ([tail[0]] + Without(tail[1..], owner)) == (rest + [tail[0]]) + Without(tail[1..], owner);
          rest := rest + [tail[0]];
          i := i + 1;
        }
        tail := tail[1..];
      }
    }

    /** F_GETLK. The answer replaces the guest's struct flock only when the call succeeds. */
    method Getlk(fd: FdView, f: Flock, owner: Owner, pid: int) returns (err: int, out: Flock)
      ensures f.ltype !in {F_RDLCK, F_WRLCK} ==> err == EINVAL && out == f
      ensures f.ltype in {F_RDLCK, F_WRLCK} ==>
        match FromFlock(fd, f, owner, pid)
        case Err(e) => err == e && out == f
        case Ok(r) =>
          var i := FirstConflict(posixLocks, r);
          && err == 0 && out == (if i < |posixLocks| then ToFlock(posixLocks[i]) else f.(ltype := F_UNLCK))
          && (Inv(posixLocks) && r.start <= r.end ==> (out.ltype == F_UNLCK <==> !MustRefuse(posixLocks, r)))
    {
      if f.ltype != F_RDLCK && f.ltype != F_WRLCK { return EINVAL, f; }
      match FromFlock(fd, f, owner, pid)
      case Err(e) => return e, f;
      case Ok(request) =>
        var i := Test(request);
        if Inv(posixLocks) && request.start <= request.end { GetlkPredictsSetlk(posixLocks, request); }
        if i < |posixLocks| {
          return 0, ToFlock(posixLocks[i]);
        }
        return 0, f.(ltype := F_UNLCK);
    }

    /** F_SETLK, and one attempt of F_SETLKW: EAGAIN is where the blocking call goes to wait. */
    method Setlk(fd: FdView, f: Flock, owner: Owner, pid: int) returns (err: int)
      modifies this
      ensures f.ltype !in {F_RDLCK, F_WRLCK, F_UNLCK} ==> err == EINVAL
      ensures f.ltype == F_RDLCK && fd.mode == WriteOnly ==> err == EBADF
      ensures f.ltype == F_WRLCK && fd.mode == ReadOnly ==> err == EBADF
      ensures SetlkAllowed(fd, f) && FromFlock(fd, f, owner, pid).Err? ==> err == FromFlock(fd, f, owner, pid).code
      ensures SetlkAllowed(fd, f) && FromFlock(fd, f, owner, pid).Ok? ==>
        var r := FromFlock(fd, f, owner, pid).value;
        && err == (if Blocked(old(posixLocks), r) then EAGAIN else 0)
        && posixLocks == Apply(old(posixLocks), SetLock(r))
        && unlockSignals == old(unlockSignals) + if Blocked(old(posixLocks), r) then 0 else Place(old(posixLocks), r).signals
      ensures SetlkAllowed(fd, f) && FromFlock(fd, f, owner, pid).Ok? && Inv(old(posixLocks)) ==>
        var r := FromFlock(fd, f, owner, pid).value;
        r.start <= r.end ==> (err == EAGAIN <==> MustRefuse(old(posixLocks), r))
      ensures !(SetlkAllowed(fd, f) && FromFlock(fd, f, owner, pid).Ok?) ==>
        posixLocks == old(posixLocks) && unlockSignals == old(unlockSignals)
    {
      if f.ltype != F_RDLCK && f.ltype != F_WRLCK && f.ltype != F_UNLCK { return EINVAL; }
      if f.ltype == F_RDLCK && fd.mode == WriteOnly { return EBADF; }
      if f.ltype == F_WRLCK && fd.mode == ReadOnly { return EBADF; }
      match FromFlock(fd, f, owner, pid)
      case Err(e) => err := e;
      case Ok(request) =>
        if Inv(posixLocks) && request.start <= request.end { RefusedExactly(posixLocks, request); }
        var granted := Acquire(request);
        err := if granted then 0 else EAGAIN;
    }
  }

  predicate SetlkAllowed(fd: FdView, f: Flock) {
    && f.ltype in {F_RDLCK, F_WRLCK, F_UNLCK}
    && !(f.ltype == F_RDLCK && fd.mode == WriteOnly)
    && !(f.ltype == F_WRLCK && fd.mode == ReadOnly)
  }

  /** F_GETLK answers "unlocked" exactly when F_SETLK with the same argument must be granted, and
      otherwise describes a lock that refuses it: another owner holds its bytes, some of them asked for,
      and one of the two would write. */
  lemma {:induction false} GetlkPredictsSetlk(locks: seq<FileLock>, r: FileLock)
    requires r.ltype != UnLck && r.start <= r.end && Inv(locks)
    ensures FirstConflict(locks, r) == |locks| <==> !MustRefuse(locks, r)
    ensures FirstConflict(locks, r) < |locks| ==>
      var x := locks[FirstConflict(locks, r)];
      && x.owner != r.owner && x.ltype != UnLck && (x.ltype == WrLck || r.ltype == WrLck)
      && (exists off :: x.Covers(off) && r.Covers(off))
      && forall off :: x.Covers(off) ==> TypeAt(locks, x.owner, off) == x.ltype
  {
    var i := FirstConflict(locks, r);
    InvIsSound(locks);
    RefusedExactly(locks, r);
    if i < |locks| {
      var x := locks[i];
      assert x in locks;
      assert Proper(x);
      var off := if x.start >= r.start then x.start else r.start;
      assert x.Covers(off) && r.Covers(off);
      forall off | x.Covers(off) ensures TypeAt(locks, x.owner, off) == x.ltype { TypeAtMember(locks, x, off); }
    }
  }
}
