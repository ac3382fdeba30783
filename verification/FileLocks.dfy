/**
 POSIX advisory record locks of one inode (fs/lock.c).

 The list `posix_locks` is a sequence of closed byte intervals grouped by owner. `Acquire` edits it
 in place in one pass; `Place` is the function it computes, and the lemmas below say what `Place`
 means: it overwrites the requester's offset-to-type map on the requested interval and nothing else.
 */
module FileLocks {

  datatype LockType = RdLck | WrLck | UnLck

  type Owner = nat

  const OFF_T_MIN: int := -0x8000_0000_0000_0000
  const OFF_T_MAX: int := 0x7fff_ffff_ffff_ffff

  type Offset = x: int | OFF_T_MIN <= x <= OFF_T_MAX

  datatype FileLock = FileLock(start: Offset, end: Offset, ltype: LockType, owner: Owner, pid: int) {
    predicate Covers(off: int) { start <= off <= end }
  }

  predicate Overlap(a: FileLock, b: FileLock) {
    a.end >= b.start && b.end >= a.start
  }

  /** start - 1, which wraps around at the lowest offset. */
  function Before(x: Offset): Offset { if x == OFF_T_MIN then OFF_T_MAX else x - 1 }

  predicate Adjacent(a: FileLock, b: FileLock) {
    a.end == Before(b.start) || b.end == Before(a.start)
  }

  /** Next to each other, without wrapping around. */
  predicate Touch(a: FileLock, b: FileLock) {
    a.end == b.start - 1 || b.end == a.start - 1
  }

  predicate Conflict(a: FileLock, b: FileLock) {
    a.owner != b.owner && Overlap(a, b) && (a.ltype == WrLck || b.ltype == WrLck)
  }

  // ---------------------------------------------------------------------------------------------
  // The function that one pass over the list computes
  // ---------------------------------------------------------------------------------------------

  datatype Swept = Swept(kept: seq<FileLock>, request: FileLock, signals: nat)

  /** The smallest interval holding both the request and a lock it merges with. */
  function Extend(r: FileLock, lock: FileLock): FileLock {
    var r1 := if lock.start < r.start then r.(start := lock.start) else r;
    if lock.end > r1.end then r1.(end := lock.end) else r1
  }

  /** What is left of `lock` once the overlapping request is taken out of it. */
  function Subtract(lock: FileLock, r: FileLock): seq<FileLock> {
    if r.start > lock.start && r.end < lock.end then
      [lock.(end := r.start - 1), lock.(start := r.end + 1)]
    else if r.start <= lock.start && r.end >= lock.end then []
    else if lock.start < r.start then [lock.(end := r.start - 1)]
    else [lock.(start := r.end + 1)]
  }

  /** One iteration of the pass, on a lock of the requester. */
  function SweepOne(lock: FileLock, r: FileLock): Swept {
    if r.ltype == lock.ltype then
      if !Overlap(lock, r) && !Adjacent(r, lock) then Swept([lock], r, 0)
      else Swept([], Extend(r, lock), 0)
    else if !Overlap(lock, r) then Swept([lock], r, 0)
    else Swept(Subtract(lock, r), r, 1)
  }

  function Sweep(own: seq<FileLock>, r: FileLock): Swept {
    if own == [] then Swept([], r, 0) else
      var s := SweepOne(own[0], r);
      var rest := Sweep(own[1..], s.request);
      Swept(s.kept + rest.kept, rest.request, s.signals + rest.signals)
  }

  /** Position of the first lock of `o` at or after `i`, or the end of the list. */
  function OwnStart(locks: seq<FileLock>, o: Owner, i: nat): (k: nat)
    requires i <= |locks|
    ensures i <= k <= |locks|
    ensures forall j :: i <= j < k ==> locks[j].owner != o
    ensures k < |locks| ==> locks[k].owner == o
    decreases |locks| - i
  {
    if i == |locks| || locks[i].owner == o then i else OwnStart(locks, o, i + 1)
  }

  /** End of the run of locks of `o` that starts at `i`. */
  function OwnEnd(locks: seq<FileLock>, o: Owner, i: nat): (m: nat)
    requires i <= |locks|
    ensures i <= m <= |locks|
    ensures forall j :: i <= j < m ==> locks[j].owner == o
    ensures m < |locks| ==> locks[m].owner != o
    decreases |locks| - i
  {
    if i == |locks| || locks[i].owner != o then i else OwnEnd(locks, o, i + 1)
  }

  predicate Blocked(locks: seq<FileLock>, r: FileLock) {
    r.ltype != UnLck && exists i :: 0 <= i < |locks| && Conflict(locks[i], r)
  }

  datatype Placed = Placed(locks: seq<FileLock>, signals: nat)

  function Place(locks: seq<FileLock>, r: FileLock): Placed {
    var k := OwnStart(locks, r.owner, 0);
    var m := OwnEnd(locks, r.owner, k);
    var s := Sweep(locks[k..m], r);
    Placed(locks[..k] + s.kept + (if r.ltype == UnLck then [] else [s.request]) + locks[m..], s.signals)
  }

  function Without(locks: seq<FileLock>, o: Owner): seq<FileLock> {
    if locks == [] then []
    else if locks[0].owner == o then Without(locks[1..], o)
    else [locks[0]] + Without(locks[1..], o)
  }

  // ---------------------------------------------------------------------------------------------
  // What a list means, and when it is well formed
  // ---------------------------------------------------------------------------------------------

  /** The offset-to-type map of one owner. */
  function TypeAt(locks: seq<FileLock>, o: Owner, off: int): LockType {
    if locks == [] then UnLck
    else if locks[0].owner == o && locks[0].Covers(off) then locks[0].ltype
    else TypeAt(locks[1..], o, off)
  }

  /** Two locks of one owner share no byte, and of one type they do not touch;
      two locks of different owners share a byte only if both are read locks. */
  predicate Pair(a: FileLock, b: FileLock) {
    if a.owner == b.owner then
      !Overlap(a, b) && (a.ltype == b.ltype ==> !Touch(a, b))
    else
      Overlap(a, b) ==> a.ltype == RdLck && b.ltype == RdLck
  }

  predicate Apart(locks: seq<FileLock>) {
    forall i, j :: 0 <= i < j < |locks| ==> Pair(locks[i], locks[j])
  }

  predicate Cross(a: seq<FileLock>, b: seq<FileLock>) {
    forall x, y :: x in a && y in b ==> Pair(x, y)
  }

  predicate Proper(x: FileLock) {
    x.start <= x.end && x.ltype != UnLck
  }

  predicate AllProper(locks: seq<FileLock>) {
    forall x :: x in locks ==> Proper(x)
  }

  predicate Grouped(locks: seq<FileLock>) {
    forall i, j, k :: 0 <= i < j < k < |locks| && locks[i].owner == locks[k].owner ==>
      locks[j].owner == locks[i].owner
  }

  predicate Inv(locks: seq<FileLock>) {
    AllProper(locks) && Apart(locks) && Grouped(locks)
  }

  predicate AllOwnedBy(locks: seq<FileLock>, o: Owner) {
    forall x :: x in locks ==> x.owner == o
  }

  predicate NoneOwnedBy(locks: seq<FileLock>, o: Owner) {
    forall x :: x in locks ==> x.owner != o
  }

  lemma ApartConcat(a: seq<FileLock>, b: seq<FileLock>)
    ensures Apart(a + b) <==> Apart(a) && Apart(b) && Cross(a, b)
  {
    var c := a + b;
    if Apart(c) {
      forall i, j | 0 <= i < j < |a| ensures Pair(a[i], a[j]) { assert c[i] == a[i] && c[j] == a[j]; }
      forall i, j | 0 <= i < j < |b| ensures Pair(b[i], b[j]) {
        assert c[|a| + i] == b[i] && c[|a| + j] == b[j];
      }
      forall x, y | x in a && y in b ensures Pair(x, y) {
        var i :| 0 <= i < |a| && a[i] == x;
        var j :| 0 <= j < |b| && b[j] == y;
        assert c[i] == x && c[|a| + j] == y;
      }
    }
  }

  /** No element is an unlock. */
  predicate AllLocks(locks: seq<FileLock>) {
    forall x :: x in locks ==> x.ltype != UnLck
  }

  /** The locks share a byte; one that ends before it starts shares none. */
  predicate Meet(a: FileLock, b: FileLock) {
    a.start <= a.end && b.start <= b.end && Overlap(a, b)
  }

  /** On a byte they share, two locks of one owner say the same and two owners both read. */
  predicate Agree(a: FileLock, b: FileLock) {
    Meet(a, b) ==> if a.owner == b.owner then a.ltype == b.ltype else a.ltype == RdLck && b.ltype == RdLck
  }

  predicate Agreeing(locks: seq<FileLock>) {
    forall x, y :: x in locks && y in locks ==> Agree(x, y)
  }

  /** What every list keeps, whatever is asked: the types are those of a map, writers exclude, owners are
      grouped. Locks may end before they start, overlap others of their type, or be left uncoalesced. */
  predicate Sound(locks: seq<FileLock>) {
    AllLocks(locks) && Agreeing(locks) && Grouped(locks)
  }

  lemma InvIsSound(locks: seq<FileLock>)
    requires Inv(locks)
    ensures Sound(locks)
  {
    forall x, y | x in locks && y in locks ensures Agree(x, y) {
      var i :| 0 <= i < |locks| && locks[i] == x;
      var j :| 0 <= j < |locks| && locks[j] == y;
      if i < j { assert Pair(x, y); }
      if j < i { assert Pair(y, x); }
    }
    forall x | x in locks ensures x.ltype != UnLck { assert Proper(x); }
  }

  /** No lock starts at the lowest offset. */
  predicate High(locks: seq<FileLock>) {
    forall x :: x in locks ==> x.start > OFF_T_MIN
  }

  /** A request whose neighbours are next to it: the wrap-around of start - 1 leads it to no others. */
  predicate Safe(r: FileLock) {
    r.ltype == UnLck || r.start > OFF_T_MIN || r.end >= OFF_T_MAX - 1
  }

  lemma {:induction false} TypeAtConcat(a: seq<FileLock>, b: seq<FileLock>, o: Owner, off: int)
    requires AllLocks(a)
    ensures TypeAt(a + b, o, off) ==
            if TypeAt(a, o, off) != UnLck then TypeAt(a, o, off) else TypeAt(b, o, off)
  {
    if a == [] {
      assert a + b == b;
    } else {
      assert a[0].ltype != UnLck;
      TypeAtConcat(a[1..], b, o, off);
      assert (a + b)[1..] == a[1..] + b;
    }
  }

  lemma {:induction false} TypeAtNone(locks: seq<FileLock>, o: Owner, off: int)
    requires forall x :: x in locks ==> x.owner != o || !x.Covers(off)
    ensures TypeAt(locks, o, off) == UnLck
  {
    if locks != [] { TypeAtNone(locks[1..], o, off); }
  }

  /** The map is what any covering lock says. */
  lemma {:induction false} TypeAtMember(locks: seq<FileLock>, x: FileLock, off: int)
    requires Agreeing(locks) && x in locks && x.Covers(off)
    ensures TypeAt(locks, x.owner, off) == x.ltype
  {
    var first := locks[0];
    assert first in locks && Agree(first, x);
    if first.owner != x.owner || !first.Covers(off) {
      assert x in locks[1..];
      forall y, z | y in locks[1..] && z in locks[1..] ensures Agree(y, z) { assert y in locks && z in locks; }
      TypeAtMember(locks[1..], x, off);
    }
  }

  lemma {:induction false} TypeAtSource(locks: seq<FileLock>, o: Owner, off: int) returns (x: FileLock)
    requires TypeAt(locks, o, off) != UnLck
    ensures x in locks && x.owner == o && x.Covers(off) && x.ltype == TypeAt(locks, o, off)
  {
    if locks[0].owner == o && locks[0].Covers(off) {
      x := locks[0];
    } else {
      x := TypeAtSource(locks[1..], o, off);
    }
  }

  // ---------------------------------------------------------------------------------------------
  // The pass over the requester's own locks
  // ---------------------------------------------------------------------------------------------

  /** `x` is part of a lock of `own`: same owner and type, inside its interval. */
  predicate PartOf(x: FileLock, own: seq<FileLock>) {
    exists y :: y in own && y.owner == x.owner && y.ltype == x.ltype && y.start <= x.start && x.end <= y.end
  }

  /** Every offset the grown request covers was covered by the request or by a lock of its type. */
  ghost predicate GrowthJustified(grown: FileLock, r: FileLock, own: seq<FileLock>) {
    forall off :: grown.Covers(off) ==> r.Covers(off) || exists y :: y in own && y.ltype == r.ltype && y.Covers(off)
  }

  ghost predicate SweepShape(own: seq<FileLock>, r: FileLock, s: Swept) {
    && s.request.ltype == r.ltype && s.request.owner == r.owner && s.request.pid == r.pid
    && s.request.start <= r.start && r.end <= s.request.end
    && GrowthJustified(s.request, r, own)
    && AllProper(s.kept) && Apart(s.kept)
    && (forall x :: x in s.kept ==> PartOf(x, own) && Pair(x, s.request))
  }

  lemma SweepOneShape(lock: FileLock, r: FileLock)
    requires Proper(lock) && lock.owner == r.owner && r.start <= r.end && lock.start > OFF_T_MIN && Safe(r)
    ensures SweepShape([lock], r, SweepOne(lock, r)) && Safe(SweepOne(lock, r).request)
  {
    var s := SweepOne(lock, r);
    assert lock in [lock];
    forall off | s.request.Covers(off)
      ensures r.Covers(off) || exists y :: y in [lock] && y.ltype == r.ltype && y.Covers(off)
    {
      if !r.Covers(off) { assert lock.Covers(off); }
    }
  }

  lemma {:induction false} SweepKeepsShape(own: seq<FileLock>, r: FileLock)
    requires AllProper(own) && AllOwnedBy(own, r.owner) && Apart(own) && r.start <= r.end && High(own) && Safe(r)
    ensures SweepShape(own, r, Sweep(own, r))
  {
    if own == [] {
    } else {
      var x, tail := own[0], own[1..];
      assert own == [x] + tail;
      ApartConcat([x], tail);
      SweepOneShape(x, r);
      var s := SweepOne(x, r);
      SweepKeepsShape(tail, s.request);
      var rest := Sweep(tail, s.request);
      forall off | rest.request.Covers(off)
        ensures r.Covers(off) || exists y :: y in own && y.ltype == r.ltype && y.Covers(off)
      {
        if !s.request.Covers(off) {
          var y :| y in tail && y.ltype == r.ltype && y.Covers(off);
          assert y in own;
        } else if !r.Covers(off) {
          var y :| y in [x] && y.ltype == r.ltype && y.Covers(off);
          assert y in own;
        }
      }
      forall p | p in s.kept ensures Pair(p, rest.request) && PartOf(p, own) {
        assert PartOf(p, [x]);
        assert x in own;
        KeptStaysApart(x, p, tail, s.request, rest.request);
      }
      forall p | p in rest.kept ensures PartOf(p, own) {
        var y :| y in tail && y.owner == p.owner && y.ltype == p.ltype && y.start <= p.start && p.end <= y.end;
        assert y in own;
      }
      forall p, q | p in s.kept && q in rest.kept ensures Pair(p, q) {
        assert PartOf(p, [x]);
        var y :| y in tail && y.owner == q.owner && y.ltype == q.ltype && y.start <= q.start && q.end <= y.end;
        assert Pair(x, y);
      }
      ApartConcat(s.kept, rest.kept);
    }
  }

  /** Later growth of the request covers no byte of a kept piece, nor, for its own type, one next to it. */
  lemma GrowthMisses(x: FileLock, p: FileLock, tail: seq<FileLock>, r: FileLock, grown: FileLock, off: int)
    requires AllOwnedBy(tail, x.owner) && AllProper(tail) && forall y :: y in tail ==> Pair(x, y)
    requires p.owner == x.owner == r.owner && p.ltype == x.ltype
    requires x.start <= p.start <= p.end <= x.end
    requires GrowthJustified(grown, r, tail) && Pair(p, r) && r.start <= r.end
    requires p.Covers(off) || (p.ltype == r.ltype && (off == p.start - 1 || off == p.end + 1))
    ensures !grown.Covers(off)
  {
    assert !r.Covers(off);
    forall y | y in tail && y.ltype == r.ltype ensures !y.Covers(off) {
      assert Pair(x, y) && Proper(y);
    }
  }

  /** A piece kept by an earlier iteration is not reached by later growth of the request. */
  lemma KeptStaysApart(x: FileLock, p: FileLock, tail: seq<FileLock>, r: FileLock, grown: FileLock)
    requires AllOwnedBy(tail, x.owner) && AllProper(tail) && forall y :: y in tail ==> Pair(x, y)
    requires p.owner == x.owner == r.owner == grown.owner && p.ltype == x.ltype
    requires x.start <= p.start <= p.end <= x.end
    requires grown.ltype == r.ltype && grown.start <= r.start <= r.end <= grown.end
    requires GrowthJustified(grown, r, tail) && Pair(p, r)
    ensures Pair(p, grown)
  {
    GrowthMisses(x, p, tail, r, grown, p.start);
    if p.Covers(grown.start) { GrowthMisses(x, p, tail, r, grown, grown.start); }
    if p.ltype == r.ltype {
      GrowthMisses(x, p, tail, r, grown, p.start - 1);
      GrowthMisses(x, p, tail, r, grown, p.end + 1);
    }
  }

  function Overlay(r: FileLock, locks: seq<FileLock>, off: int): LockType {
    if r.Covers(off) then r.ltype else TypeAt(locks, r.owner, off)
  }

  // ---------------------------------------------------------------------------------------------
  // The pass over any of the requester's locks, for any request
  // ---------------------------------------------------------------------------------------------

  ghost predicate SweepSound(own: seq<FileLock>, r: FileLock, s: Swept) {
    && s.request.owner == r.owner && s.request.ltype == r.ltype && Safe(s.request)
    && AllLocks(s.kept) && (forall k :: k in s.kept ==> PartOf(k, own))
    && (forall off :: r.Covers(off) ==> s.request.Covers(off))
    && GrowthJustified(s.request, r, own) && Avoids(s.kept, s.request) && Preserves(own, s.request, s.kept)
  }

  /** What is kept of another type shares no byte with the request. */
  ghost predicate Avoids(kept: seq<FileLock>, request: FileLock) {
    forall k, off :: k in kept && k.ltype != request.ltype && request.Covers(off) ==> !k.Covers(off)
  }

  /** Every byte a lock had and the request has not is still a lock's of that type. */
  ghost predicate Preserves(own: seq<FileLock>, request: FileLock, kept: seq<FileLock>) {
    forall y, off :: y in own && y.Covers(off) && !request.Covers(off) ==> Kept(kept, y, off)
  }

  predicate Kept(kept: seq<FileLock>, y: FileLock, off: int) {
    exists k :: k in kept && k.owner == y.owner && k.ltype == y.ltype && k.Covers(off)
  }

  /** What a merge covers was covered before, whichever of the two ends before it starts. */
  lemma MergeCovers(x: FileLock, r: FileLock, off: int)
    requires Overlap(x, r) || Touch(x, r)
    ensures Extend(r, x).Covers(off) <==> r.Covers(off) || x.Covers(off)
  {}

  lemma MergesTouch(x: FileLock, r: FileLock)
    requires x.start > OFF_T_MIN && r.ltype == x.ltype != UnLck && Safe(r) && Adjacent(r, x)
    ensures Overlap(x, r) || Touch(x, r)
  {}

  lemma SubtractCovers(x: FileLock, r: FileLock, off: int)
    requires Overlap(x, r)
    ensures x.Covers(off) && !r.Covers(off) ==> Kept(Subtract(x, r), x, off)
    ensures forall k :: k in Subtract(x, r) && k.Covers(off) ==> !r.Covers(off)
    ensures forall k :: k in Subtract(x, r) ==> k.owner == x.owner && k.ltype == x.ltype && x.start <= k.start && k.end <= x.end
  {
    var kept := Subtract(x, r);
    if x.Covers(off) && !r.Covers(off) {
      var k := if |kept| == 2 && off > r.end then kept[1] else kept[0];
      assert k in kept && k.Covers(off);
    }
  }

  lemma {:induction false} MergeSound(x: FileLock, r: FileLock)
    requires x.ltype == r.ltype != UnLck && x.owner == r.owner && x.start > OFF_T_MIN && Safe(r) && (Overlap(x, r) || Touch(x, r))
    ensures SweepSound([x], r, Swept([], Extend(r, x), 0))
  {
    var grown := Extend(r, x);
    assert x in [x];
    forall off ensures grown.Covers(off) <==> r.Covers(off) || x.Covers(off) { MergeCovers(x, r, off); }
  }

  lemma {:induction false} SubtractSound(x: FileLock, r: FileLock)
    requires r.ltype != x.ltype && x.ltype != UnLck && x.owner == r.owner && Safe(r) && Overlap(x, r)
    ensures SweepSound([x], r, Swept(Subtract(x, r), r, 1))
  {
    var kept := Subtract(x, r);
    assert x in [x];
    SubtractCovers(x, r, 0);
    forall k | k in kept ensures PartOf(k, [x]) {}
    forall k, off | k in kept && r.Covers(off) ensures !k.Covers(off) { SubtractCovers(x, r, off); }
    forall y, off | y in [x] && y.Covers(off) && !r.Covers(off) ensures Kept(kept, y, off) { SubtractCovers(x, r, off); }
  }

  lemma {:induction false} LeaveSound(x: FileLock, r: FileLock)
    requires x.ltype != UnLck && x.owner == r.owner && Safe(r) && !Overlap(x, r)
    ensures SweepSound([x], r, Swept([x], r, 0))
  {
    assert x in [x] && PartOf(x, [x]);
    forall y, off | y in [x] && y.Covers(off) && !r.Covers(off) ensures Kept([x], y, off) { KeptItself(x, off); }
  }

  lemma KeptItself(x: FileLock, off: int)
    requires x.Covers(off)
    ensures Kept([x], x, off)
  {
    assert x in [x];
  }

  lemma {:induction false} SweepOneSound(x: FileLock, r: FileLock)
    requires x.ltype != UnLck && x.owner == r.owner && x.start > OFF_T_MIN && Safe(r)
    ensures SweepSound([x], r, SweepOne(x, r))
  {
    if r.ltype == x.ltype && (Overlap(x, r) || Adjacent(r, x)) {
      if Adjacent(r, x) { MergesTouch(x, r); }
      MergeSound(x, r);
    } else if Overlap(x, r) {
      SubtractSound(x, r);
    } else {
      LeaveSound(x, r);
    }
  }

  lemma KeptMore(a: seq<FileLock>, b: seq<FileLock>, y: FileLock, off: int)
    requires Kept(a, y, off) || Kept(b, y, off)
    ensures Kept(a + b, y, off)
  {
    var k :| (k in a || k in b) && k.owner == y.owner && k.ltype == y.ltype && k.Covers(off);
    assert k in a + b;
  }

  lemma PartOfMore(k: FileLock, some: seq<FileLock>, all: seq<FileLock>)
    requires PartOf(k, some) && forall y :: y in some ==> y in all
    ensures PartOf(k, all)
  {}

  lemma {:induction false} SweepIsSound(own: seq<FileLock>, r: FileLock)
    requires AllLocks(own) && AllOwnedBy(own, r.owner) && Agreeing(own) && High(own) && Safe(r)
    ensures SweepSound(own, r, Sweep(own, r))
  {
    if own != [] {
      var x, tail := own[0], own[1..];
      assert own == [x] + tail && x in own && forall y :: y in tail ==> y in own;
      var one := SweepOne(x, r);
      SweepOneSound(x, r);
      SweepIsSound(tail, one.request);
      SweepJoins(x, tail, r, one, Sweep(tail, one.request));
    }
  }

  lemma {:induction false} SweepJoins(x: FileLock, tail: seq<FileLock>, r: FileLock, one: Swept, rest: Swept)
    requires one == SweepOne(x, r) && SweepSound([x], r, one) && SweepSound(tail, one.request, rest)
    requires forall y :: y in tail ==> y.owner == x.owner && Agree(x, y)
    ensures SweepSound([x] + tail, r, Swept(one.kept + rest.kept, rest.request, one.signals + rest.signals))
  {
    var own, kept := [x] + tail, one.kept + rest.kept;
    assert x in own && forall y :: y in tail ==> y in own;
    forall k | k in kept ensures PartOf(k, own) && k.ltype != UnLck {
      if k in one.kept { PartOfMore(k, [x], own); } else { PartOfMore(k, tail, own); }
    }
    GrowthJoins(x, tail, r, one.request, rest.request);
    AvoidsJoins(x, tail, r, one, rest);
    PreservesJoins(x, tail, one, rest);
  }

  lemma {:induction false} GrowthJoins(x: FileLock, tail: seq<FileLock>, r: FileLock, mid: FileLock, grown: FileLock)
    requires mid.ltype == r.ltype && GrowthJustified(mid, r, [x]) && GrowthJustified(grown, mid, tail)
    ensures GrowthJustified(grown, r, [x] + tail)
  {
    forall off | grown.Covers(off) && !r.Covers(off)
      ensures exists y :: y in [x] + tail && y.ltype == r.ltype && y.Covers(off)
    {
      if mid.Covers(off) {
        var y :| y in [x] && y.ltype == r.ltype && y.Covers(off);
        assert y in [x] + tail;
      } else {
        var y :| y in tail && y.ltype == r.ltype && y.Covers(off);
        assert y in [x] + tail;
      }
    }
  }

  lemma {:induction false} AvoidsJoins(x: FileLock, tail: seq<FileLock>, r: FileLock, one: Swept, rest: Swept)
    requires SweepSound([x], r, one) && SweepSound(tail, one.request, rest)
    requires forall y :: y in tail ==> y.owner == x.owner && Agree(x, y)
    ensures Avoids(one.kept + rest.kept, rest.request)
  {
    forall k, off | k in one.kept + rest.kept && k.ltype != r.ltype && rest.request.Covers(off) ensures !k.Covers(off) {
      if k in one.kept && !one.request.Covers(off) {
        var y :| y in tail && y.ltype == r.ltype && y.Covers(off);
        PartBelow(k, x);
        assert Agree(x, y);
      }
    }
  }

  lemma PartBelow(k: FileLock, x: FileLock)
    requires PartOf(k, [x])
    ensures k.ltype == x.ltype && k.owner == x.owner && x.start <= k.start && k.end <= x.end
  {}

  lemma {:induction false} PreservesJoins(x: FileLock, tail: seq<FileLock>, one: Swept, rest: Swept)
    requires Preserves([x], one.request, one.kept) && Preserves(tail, rest.request, rest.kept)
    requires forall off :: one.request.Covers(off) ==> rest.request.Covers(off)
    ensures Preserves([x] + tail, rest.request, one.kept + rest.kept)
  {
    forall y, off | y in [x] + tail && y.Covers(off) && !rest.request.Covers(off) ensures Kept(one.kept + rest.kept, y, off) {
      if y in tail {
        assert Kept(rest.kept, y, off);
      } else {
        assert y in [x] && Kept(one.kept, y, off);
      }
      KeptMore(one.kept, rest.kept, y, off);
    }
  }

  /** A merge brings the request over no lock of another type. */
  lemma MergeMeetsNoOther(x: FileLock, y: FileLock, r: FileLock)
    requires Proper(x) && Proper(y) && x.owner == y.owner == r.owner && !Overlap(x, y) && y.ltype != r.ltype
    requires x.start > OFF_T_MIN && Safe(r)
    ensures Overlap(y, SweepOne(x, r).request) <==> Overlap(y, r)
  {}

  ghost predicate Meets(own: seq<FileLock>, r: FileLock) {
    exists x :: x in own && x.ltype != r.ltype && Overlap(x, r)
  }

  lemma {:induction false} MeetsTail(x: FileLock, tail: seq<FileLock>, r: FileLock)
    requires AllProper([x] + tail) && AllOwnedBy([x] + tail, r.owner) && Apart([x] + tail) && x.start > OFF_T_MIN && Safe(r)
    ensures Meets([x] + tail, r) <==> (x.ltype != r.ltype && Overlap(x, r)) || Meets(tail, SweepOne(x, r).request)
  {
    var own, grown := [x] + tail, SweepOne(x, r).request;
    ApartConcat([x], tail);
    assert x in own && x in [x] && grown.ltype == r.ltype;
    forall y | y in tail && y.ltype != r.ltype ensures Overlap(y, grown) <==> Overlap(y, r) {
      assert y in own && Pair(x, y) && Proper(x) && Proper(y);
      MergeMeetsNoOther(x, y, r);
    }
    if Meets(tail, grown) {
      var y :| y in tail && y.ltype != grown.ltype && Overlap(y, grown);
      assert y in own && Overlap(y, r);
    }
  }

  lemma {:induction false} SweepSignals(own: seq<FileLock>, r: FileLock)
    requires AllProper(own) && AllOwnedBy(own, r.owner) && Apart(own) && High(own) && Safe(r)
    ensures Sweep(own, r).signals > 0 <==> Meets(own, r)
  {
    if own != [] {
      var x, tail := own[0], own[1..];
      assert own == [x] + tail && x in own && Proper(x);
      ApartConcat([x], tail);
      SweepOneSound(x, r);
      MeetsTail(x, tail, r);
      SweepSignals(tail, SweepOne(x, r).request);
    }
  }

  /** A lock of another type that shares a byte with the request signals. */
  lemma {:induction false} MeetingSignals(own: seq<FileLock>, x: FileLock, r: FileLock, off: int)
    requires AllLocks(own) && AllOwnedBy(own, r.owner) && High(own) && Safe(r)
    requires x in own && x.ltype != r.ltype && x.Covers(off) && r.Covers(off)
    ensures Sweep(own, r).signals > 0
  {
    if own[0] != x {
      assert own[0] in own && forall y :: y in own[1..] ==> y in own;
      SweepOneSound(own[0], r);
      MeetingSignals(own[1..], x, SweepOne(own[0], r).request, off);
    }
  }

  // ---------------------------------------------------------------------------------------------
  // Main results about one acquire
  // ---------------------------------------------------------------------------------------------

  ghost predicate Parts(a: seq<FileLock>, own: seq<FileLock>, b: seq<FileLock>, me: Owner) {
    && AllProper(a) && AllProper(own) && AllProper(b)
    && NoneOwnedBy(a, me) && AllOwnedBy(own, me) && NoneOwnedBy(b, me)
    && Apart(a) && Apart(own) && Apart(b) && Cross(a, own) && Cross(a, b) && Cross(b, own)
    && (own == [] ==> b == []) && Grouped(a + own + b)
  }

  lemma NoneAfterGroup(locks: seq<FileLock>, o: Owner, k: nat, m: nat)
    requires Grouped(locks) && k == OwnStart(locks, o, 0) && m == OwnEnd(locks, o, k)
    ensures NoneOwnedBy(locks[m..], o)
  {
    if k < |locks| {
      forall i | m < i < |locks| ensures locks[i].owner != o {
        assert locks[k].owner == o != locks[m].owner;
      }
    }
  }

  lemma PartsOf(a: seq<FileLock>, own: seq<FileLock>, b: seq<FileLock>, me: Owner)
    requires Inv(a + own + b) && NoneOwnedBy(a, me) && AllOwnedBy(own, me) && NoneOwnedBy(b, me)
    requires own == [] ==> b == []
    ensures Parts(a, own, b, me)
  {
    var locks := a + own + b;
    assert locks == a + (own + b);
    ApartConcat(a, own + b);
    ApartConcat(own, b);
    CrossParts(a, own, b);
    forall x | x in a || x in own || x in b ensures Proper(x) { assert x in locks; }
  }

  /** The list cut at the requester's group; nothing of the requester is left outside it. */
  lemma SplitAtGroup(locks: seq<FileLock>, r: FileLock) returns (a: seq<FileLock>, own: seq<FileLock>, b: seq<FileLock>)
    requires Inv(locks)
    ensures locks == a + own + b && Parts(a, own, b, r.owner)
    ensures Place(locks, r) == Placed(a + Middle(own, r) + b, Sweep(own, r).signals)
  {
    var k := OwnStart(locks, r.owner, 0);
    var m := OwnEnd(locks, r.owner, k);
    a, own, b := locks[..k], locks[k..m], locks[m..];
    assert locks == a + own + b;
    NoneAfterGroup(locks, r.owner, k, m);
    PartsOf(a, own, b, r.owner);
    PlaceParts(locks, r);
  }

  lemma PlaceParts(locks: seq<FileLock>, r: FileLock)
    ensures var k := OwnStart(locks, r.owner, 0);
            var m := OwnEnd(locks, r.owner, k);
            Place(locks, r) == Placed(locks[..k] + Middle(locks[k..m], r) + locks[m..], Sweep(locks[k..m], r).signals)
  {
    var k := OwnStart(locks, r.owner, 0);
    var m := OwnEnd(locks, r.owner, k);
    var s := Sweep(locks[k..m], r);
    var last := if r.ltype == UnLck then [] else [s.request];
    assert locks[..k] + s.kept + last + locks[m..] == locks[..k] + (s.kept + last) + locks[m..];
  }

  lemma CrossParts(a: seq<FileLock>, own: seq<FileLock>, b: seq<FileLock>)
    requires Cross(a, own + b) && Cross(own, b)
    ensures Cross(a, own) && Cross(a, b) && Cross(b, own)
  {
    forall x, y | x in a && y in own ensures Pair(x, y) { assert y in own + b; }
    forall x, y | x in a && y in b ensures Pair(x, y) { assert y in own + b; }
    forall x, y | x in b && y in own ensures Pair(x, y) { assert Pair(y, x); }
  }

  /** The requester's group after the acquire. */
  function Middle(own: seq<FileLock>, r: FileLock): seq<FileLock> {
    Sweep(own, r).kept + (if r.ltype == UnLck then [] else [Sweep(own, r).request])
  }

  lemma TypeAtOther(a: seq<FileLock>, mid: seq<FileLock>, b: seq<FileLock>, o: Owner, me: Owner, off: int)
    requires AllLocks(a) && AllLocks(mid) && AllOwnedBy(mid, me) && o != me
    ensures TypeAt(a + mid + b, o, off) == TypeAt(a + b, o, off)
  {
    TypeAtConcat(a, mid + b, o, off);
    TypeAtConcat(mid, b, o, off);
    TypeAtConcat(a, b, o, off);
    TypeAtNone(mid, o, off);
    assert a + mid + b == a + (mid + b);
  }

  lemma TypeAtMine(a: seq<FileLock>, mid: seq<FileLock>, b: seq<FileLock>, me: Owner, off: int)
    requires AllLocks(a) && AllLocks(mid) && NoneOwnedBy(a, me) && NoneOwnedBy(b, me)
    ensures TypeAt(a + mid + b, me, off) == TypeAt(mid, me, off)
  {
    TypeAtConcat(a, mid + b, me, off);
    TypeAtConcat(mid, b, me, off);
    TypeAtNone(a, me, off);
    TypeAtNone(b, me, off);
    assert a + mid + b == a + (mid + b);
  }

  lemma MiddleProper(own: seq<FileLock>, r: FileLock)
    requires AllProper(own) && AllOwnedBy(own, r.owner) && Apart(own) && r.start <= r.end && High(own) && Safe(r)
    ensures AllProper(Middle(own, r)) && AllOwnedBy(Middle(own, r), r.owner) && Apart(Middle(own, r))
  {
    SweepKeepsShape(own, r);
    var s := Sweep(own, r);
    forall x | x in s.kept ensures x.owner == r.owner { assert PartOf(x, own); }
    ApartConcat(s.kept, if r.ltype == UnLck then [] else [s.request]);
  }

  lemma {:induction false} PartsAgree(own: seq<FileLock>, parts: seq<FileLock>)
    requires Agreeing(own) && forall k :: k in parts ==> PartOf(k, own)
    ensures Agreeing(parts)
  {
    forall k, l | k in parts && l in parts ensures Agree(k, l) {
      var y :| y in own && y.owner == k.owner && y.ltype == k.ltype && y.start <= k.start && k.end <= y.end;
      var z :| z in own && z.owner == l.owner && z.ltype == l.ltype && z.start <= l.start && l.end <= z.end;
      assert Agree(y, z);
    }
  }

  /** Outside the grown request the map is as it was. */
  lemma {:induction false} OutsideMeaning(own: seq<FileLock>, r: FileLock, s: Swept, off: int)
    requires SweepSound(own, r, s) && AllLocks(own) && AllOwnedBy(own, r.owner) && Agreeing(own) && !s.request.Covers(off)
    ensures TypeAt(s.kept, r.owner, off) == TypeAt(own, r.owner, off)
  {
    PartsAgree(own, s.kept);
    if TypeAt(own, r.owner, off) != UnLck {
      var y := TypeAtSource(own, r.owner, off);
      assert Kept(s.kept, y, off);
      var k :| k in s.kept && k.owner == y.owner && k.ltype == y.ltype && k.Covers(off);
      TypeAtMember(s.kept, k, off);
    } else if TypeAt(s.kept, r.owner, off) != UnLck {
      var k := TypeAtSource(s.kept, r.owner, off);
      assert PartOf(k, own);
      var y :| y in own && y.owner == k.owner && y.ltype == k.ltype && y.start <= k.start && k.end <= y.end;
      TypeAtMember(own, y, off);
    }
  }

  /** Inside it, it is the request's type, asked for or held already. */
  lemma {:induction false} InsideMeaning(own: seq<FileLock>, r: FileLock, s: Swept, off: int)
    requires SweepSound(own, r, s) && AllLocks(own) && AllOwnedBy(own, r.owner) && Agreeing(own) && s.request.Covers(off)
    ensures TypeAt(s.kept, r.owner, off) == UnLck || TypeAt(s.kept, r.owner, off) == r.ltype
    ensures Overlay(r, own, off) == r.ltype
  {
    if TypeAt(s.kept, r.owner, off) != UnLck { var k := TypeAtSource(s.kept, r.owner, off); }
    if !r.Covers(off) {
      var y :| y in own && y.ltype == r.ltype && y.Covers(off);
      TypeAtMember(own, y, off);
    }
  }

  /** The requester's map after the pass: the request laid over what was there. */
  lemma {:induction false} SweepKeepsMeaning(own: seq<FileLock>, r: FileLock, off: int)
    requires AllLocks(own) && AllOwnedBy(own, r.owner) && Agreeing(own) && High(own) && Safe(r)
    ensures AllLocks(Middle(own, r)) && AllOwnedBy(Middle(own, r), r.owner)
    ensures TypeAt(Middle(own, r), r.owner, off) == Overlay(r, own, off)
  {
    SweepIsSound(own, r);
    var s := Sweep(own, r);
    forall k | k in s.kept ensures k.owner == r.owner { assert PartOf(k, own); }
    TypeAtConcat(s.kept, if r.ltype == UnLck then [] else [s.request], r.owner, off);
    if s.request.Covers(off) { InsideMeaning(own, r, s, off); } else { OutsideMeaning(own, r, s, off); }
  }

  /** The list cut at the requester's group. */
  lemma {:induction false} CutSound(locks: seq<FileLock>, r: FileLock) returns (a: seq<FileLock>, own: seq<FileLock>, b: seq<FileLock>)
    requires Sound(locks) && High(locks)
    ensures locks == a + own + b && Place(locks, r) == Placed(a + Middle(own, r) + b, Sweep(own, r).signals)
    ensures NoneOwnedBy(a, r.owner) && AllOwnedBy(own, r.owner) && NoneOwnedBy(b, r.owner) && (own == [] ==> b == [])
    ensures AllLocks(own) && Agreeing(own) && High(own)
    ensures forall x :: x in locks <==> x in a || x in own || x in b
  {
    var k := OwnStart(locks, r.owner, 0);
    var m := OwnEnd(locks, r.owner, k);
    a, own, b := locks[..k], locks[k..m], locks[m..];
    assert locks == a + own + b;
    NoneAfterGroup(locks, r.owner, k, m);
    PlaceParts(locks, r);
  }

  /** A granted acquire writes the requested type on exactly [start, end] of the requester's map,
      and changes no other offset and no other owner; one that ends before it starts changes nothing. */
  lemma {:induction false} PlaceMeaning(locks: seq<FileLock>, r: FileLock, o: Owner, off: int)
    requires Sound(locks) && High(locks) && Safe(r)
    ensures TypeAt(Place(locks, r).locks, o, off) ==
            if o == r.owner && r.Covers(off) then r.ltype else TypeAt(locks, o, off)
  {
    var a, own, b := CutSound(locks, r);
    SweepKeepsMeaning(own, r, off);
    assert AllLocks(a);
    if o != r.owner {
      TypeAtOther(a, Middle(own, r), b, o, r.owner, off);
      TypeAtOther(a, own, b, o, r.owner, off);
    } else {
      TypeAtMine(a, Middle(own, r), b, o, off);
      TypeAtMine(a, own, b, o, off);
    }
  }

  /** The request, grown, and any lock of another owner. */
  lemma {:induction false} GrownAgrees(x: FileLock, own: seq<FileLock>, r: FileLock, grown: FileLock)
    requires x.ltype != UnLck && r.ltype != UnLck && x.owner != r.owner == grown.owner && r.ltype == grown.ltype
    requires AllOwnedBy(own, r.owner) && !Conflict(x, r) && forall y :: y in own ==> Agree(x, y)
    requires GrowthJustified(grown, r, own)
    ensures Agree(x, grown) && Agree(grown, x)
  {
    if Meet(x, grown) {
      var off := if x.start >= grown.start then x.start else grown.start;
      assert grown.Covers(off) && x.Covers(off);
      if !r.Covers(off) {
        var y :| y in own && y.ltype == r.ltype && y.Covers(off);
        assert Agree(x, y);
      }
    }
  }

  lemma {:induction false} MiddleAgrees(own: seq<FileLock>, r: FileLock)
    requires AllLocks(own) && AllOwnedBy(own, r.owner) && Agreeing(own) && High(own) && Safe(r)
    ensures Agreeing(Middle(own, r))
  {
    SweepIsSound(own, r);
    var s := Sweep(own, r);
    PartsAgree(own, s.kept);
    forall k | k in s.kept ensures Agree(k, s.request) && Agree(s.request, k) {
      assert PartOf(k, own);
      if Meet(k, s.request) {
        var off := if k.start >= s.request.start then k.start else s.request.start;
        assert s.request.Covers(off) && k.Covers(off);
      }
    }
  }

  lemma {:induction false} OthersAgree(x: FileLock, own: seq<FileLock>, r: FileLock)
    requires AllLocks(own) && AllOwnedBy(own, r.owner) && Agreeing(own) && High(own) && Safe(r)
    requires x.ltype != UnLck && x.owner != r.owner && (r.ltype != UnLck ==> !Conflict(x, r)) && forall y :: y in own ==> Agree(x, y)
    ensures forall k :: k in Middle(own, r) ==> Agree(x, k) && Agree(k, x)
  {
    SweepIsSound(own, r);
    var s := Sweep(own, r);
    forall k | k in s.kept ensures Agree(x, k) && Agree(k, x) {
      assert PartOf(k, own);
      var y :| y in own && y.owner == k.owner && y.ltype == k.ltype && y.start <= k.start && k.end <= y.end;
      assert Agree(x, y);
    }
    if r.ltype != UnLck { GrownAgrees(x, own, r, s.request); }
  }

  lemma {:induction false} AgreeingParts(a: seq<FileLock>, mid: seq<FileLock>, b: seq<FileLock>)
    requires Agreeing(a + b) && Agreeing(mid) && forall x, k :: x in a + b && k in mid ==> Agree(x, k) && Agree(k, x)
    ensures Agreeing(a + mid + b)
  {
    assert forall x :: x in a + mid + b <==> x in a + b || x in mid;
  }

  /** A granted acquire of any kind keeps the list sound. */
  lemma {:induction false} PlaceKeepsSound(locks: seq<FileLock>, r: FileLock)
    requires Sound(locks) && High(locks) && Safe(r) && !Blocked(locks, r)
    ensures Sound(Place(locks, r).locks)
  {
    var a, own, b := CutSound(locks, r);
    SweepKeepsMeaning(own, r, 0);
    MiddleAgrees(own, r);
    forall x | x in a + b ensures x in locks && forall k :: k in Middle(own, r) ==> Agree(x, k) && Agree(k, x) {
      if r.ltype != UnLck { NotBlocked(locks, r, x); }
      OthersAgree(x, own, r);
    }
    AgreeingParts(a, Middle(own, r), b);
    GroupedAround(a, own, Middle(own, r), b, r.owner);
  }

  lemma NotBlocked(locks: seq<FileLock>, r: FileLock, x: FileLock)
    requires !Blocked(locks, r) && r.ltype != UnLck && x in locks
    ensures !Conflict(x, r)
  {
    var i :| 0 <= i < |locks| && locks[i] == x;
  }

  /** The same request leaves no lock at the lowest offset. */
  lemma {:induction false} PlaceKeepsHigh(locks: seq<FileLock>, r: FileLock)
    requires Sound(locks) && High(locks) && (r.ltype == UnLck || r.start > OFF_T_MIN)
    ensures High(Place(locks, r).locks)
  {
    var a, own, b := CutSound(locks, r);
    SweepHigh(own, r);
  }

  lemma {:induction false} SweepHigh(own: seq<FileLock>, r: FileLock)
    requires High(own) && AllLocks(own) && (r.ltype == UnLck || r.start > OFF_T_MIN)
    ensures var s := Sweep(own, r); High(s.kept) && s.request.ltype == r.ltype && (r.ltype == UnLck || s.request.start > OFF_T_MIN)
  {
    if own != [] {
      assert own[0] in own && forall y :: y in own[1..] ==> y in own;
      var one := SweepOne(own[0], r);
      SweepHigh(own[1..], one.request);
    }
  }

  lemma GroupedAround(a: seq<FileLock>, own: seq<FileLock>, mid: seq<FileLock>, b: seq<FileLock>, me: Owner)
    requires Grouped(a + own + b) && (own == [] ==> b == [])
    requires NoneOwnedBy(a, me) && NoneOwnedBy(b, me) && AllOwnedBy(own, me) && AllOwnedBy(mid, me)
    ensures Grouped(a + mid + b)
  {
    var n, l := a + mid + b, a + own + b;
    var d := |own| - |mid|;
    if own != [] {
      assert l[|a|] == own[0] && own[0] in own;
      forall i, k | 0 <= i < |a| && |a| + |mid| <= k < |n| ensures n[i].owner != n[k].owner {
        assert l[i] == n[i] == a[i] && l[k + d] == n[k];
      }
    }
    forall i, j, k | 0 <= i < j < k < |n| && n[i].owner == n[k].owner ensures n[j].owner == n[i].owner {
      if n[i].owner == me {
        assert i >= |a| && k < |a| + |mid|;
        assert n[j] == mid[j - |a|];
      } else if k < |a| {
        assert l[i] == n[i] && l[j] == n[j] && l[k] == n[k];
      } else {
        assert i >= |a| + |mid|;
        assert l[i + d] == n[i] && l[j + d] == n[j] && l[k + d] == n[k];
      }
    }
  }

  lemma CrossWithOthers(a: seq<FileLock>, own: seq<FileLock>, r: FileLock)
    requires NoneOwnedBy(a, r.owner) && AllOwnedBy(own, r.owner) && AllProper(a) && AllProper(own)
    requires Cross(a, own) && Apart(own) && r.start <= r.end && High(own) && Safe(r)
    requires r.ltype != UnLck ==> forall x :: x in a ==> !Conflict(x, r)
    ensures Cross(a, Middle(own, r))
  {
    SweepKeepsShape(own, r);
    var s := Sweep(own, r);
    forall x, p | x in a && p in s.kept ensures Pair(x, p) {
      assert PartOf(p, own);
      var y :| y in own && y.owner == p.owner && y.ltype == p.ltype && y.start <= p.start && p.end <= y.end;
      assert Pair(x, y);
    }
    if r.ltype != UnLck {
      forall x | x in a ensures Pair(x, s.request) { GrownPair(x, own, r, s.request); }
    }
  }

  lemma GrownPair(x: FileLock, own: seq<FileLock>, r: FileLock, grown: FileLock)
    requires Proper(x) && x.owner != r.owner == grown.owner && r.ltype == grown.ltype != UnLck
    requires AllOwnedBy(own, r.owner) && !Conflict(x, r) && forall y :: y in own ==> Pair(x, y)
    requires GrowthJustified(grown, r, own) && grown.start <= grown.end
    ensures Pair(x, grown)
  {
    if Overlap(x, grown) {
      var off := if x.start >= grown.start then x.start else grown.start;
      assert grown.Covers(off) && x.Covers(off);
      if !r.Covers(off) {
        var y :| y in own && y.ltype == r.ltype && y.Covers(off);
        assert Pair(x, y);
      }
    }
  }

  /** A granted acquire keeps the list grouped, disjoint, coalesced and compatible across owners. */
  lemma PlaceKeepsInv(locks: seq<FileLock>, r: FileLock)
    requires Inv(locks) && High(locks) && r.start <= r.end && Safe(r) && !Blocked(locks, r)
    ensures Inv(Place(locks, r).locks)
  {
    var a, own, b := SplitAtGroup(locks, r);
    assert forall x :: x in own ==> x in locks;
    MiddleProper(own, r);
    if r.ltype != UnLck {
      forall x | x in a || x in b ensures !Conflict(x, r) { NotBlocked(locks, r, x); }
    }
    CrossWithOthers(a, own, r);
    CrossWithOthers(b, own, r);
    JoinParts(a, Middle(own, r), b);
    GroupedAround(a, own, Middle(own, r), b, r.owner);
  }

  lemma JoinParts(a: seq<FileLock>, mid: seq<FileLock>, b: seq<FileLock>)
    requires Apart(a) && Apart(mid) && Apart(b) && Cross(a, mid) && Cross(a, b) && Cross(b, mid)
    ensures Apart(a + mid + b)
  {
    forall x, y | x in mid && y in b ensures Pair(x, y) { assert Pair(y, x); }
    ApartConcat(mid, b);
    ApartConcat(a, mid + b);
    assert a + mid + b == a + (mid + b);
  }

  /** What remains of a lock of `locks`, with the process that set it. */
  predicate RemainsOf(x: FileLock, locks: seq<FileLock>) {
    exists y :: y in locks && y.owner == x.owner && y.pid == x.pid && y.ltype == x.ltype && y.start <= x.start && x.end <= y.end
  }

  /** The lock the request makes, with the process that asked for it. */
  predicate MadeBy(x: FileLock, r: FileLock) {
    x.owner == r.owner && x.pid == r.pid && x.ltype == r.ltype && x.start <= r.start && r.end <= x.end
  }

  lemma {:induction false} SweepPids(own: seq<FileLock>, r: FileLock)
    ensures MadeBy(Sweep(own, r).request, r) && forall x :: x in Sweep(own, r).kept ==> RemainsOf(x, own)
  {
    if own != [] {
      var s := SweepOne(own[0], r);
      SweepPids(own[1..], s.request);
      forall x | x in Sweep(own, r).kept ensures RemainsOf(x, own) {
        if x in s.kept {
          assert own[0] in own;
        } else {
          var y :| y in own[1..] && y.owner == x.owner && y.pid == x.pid && y.ltype == x.ltype && y.start <= x.start && x.end <= y.end;
          assert y in own;
        }
      }
    }
  }

  /** Every lock after a granted request is what remains of one before it, under the same process, or the one
      the request made, which covers it whole and is there exactly when the request locks. */
  lemma {:induction false} PlacePids(locks: seq<FileLock>, r: FileLock)
    ensures forall x :: x in Place(locks, r).locks ==> RemainsOf(x, locks) || (r.ltype != UnLck && MadeBy(x, r))
    ensures r.ltype != UnLck ==> exists x :: x in Place(locks, r).locks && MadeBy(x, r)
  {
    var k := OwnStart(locks, r.owner, 0);
    var m := OwnEnd(locks, r.owner, k);
    var s := Sweep(locks[k..m], r);
    SweepPids(locks[k..m], r);
    forall x | x in Place(locks, r).locks ensures RemainsOf(x, locks) || (r.ltype != UnLck && MadeBy(x, r)) {
      if x in locks[..k] || x in locks[m..] {
        assert x in locks;
      } else if x in s.kept {
        var y :| y in locks[k..m] && y.owner == x.owner && y.pid == x.pid && y.ltype == x.ltype && y.start <= x.start && x.end <= y.end;
        assert y in locks;
      }
    }
    if r.ltype != UnLck { assert s.request in Place(locks, r).locks; }
  }

  predicate Weaker(now: LockType, before: LockType) {
    (now == UnLck && before != UnLck) || (now == RdLck && before == WrLck)
  }

  /** The waiters are signalled exactly when the test for overlap finds a lock of the requester of another
      type, whether or not the request ends before it starts. */
  lemma {:induction false} SignalsExactly(locks: seq<FileLock>, r: FileLock)
    requires Inv(locks) && High(locks) && Safe(r)
    ensures Place(locks, r).signals > 0 <==>
            exists x :: x in locks && x.owner == r.owner && x.ltype != r.ltype && Overlap(x, r)
  {
    var a, own, b := SplitAtGroup(locks, r);
    assert forall x :: x in own ==> x in locks;
    SweepSignals(own, r);
  }

  /** For a request that does not end before it starts, that is when the requester holds some of its
      bytes with another type. */
  lemma {:induction false} SignalsOnChange(locks: seq<FileLock>, r: FileLock)
    requires Inv(locks) && High(locks) && Safe(r) && r.start <= r.end
    ensures Place(locks, r).signals > 0 <==>
            exists off :: r.Covers(off) && TypeAt(locks, r.owner, off) !in {UnLck, r.ltype}
  {
    SignalsExactly(locks, r);
    InvIsSound(locks);
    if x :| x in locks && x.owner == r.owner && x.ltype != r.ltype && Overlap(x, r) {
      assert Proper(x);
      var off := if x.start >= r.start then x.start else r.start;
      assert r.Covers(off) && x.Covers(off);
      TypeAtMember(locks, x, off);
      assert TypeAt(locks, r.owner, off) == x.ltype;
    }
    if off :| r.Covers(off) && TypeAt(locks, r.owner, off) !in {UnLck, r.ltype} {
      var x := TypeAtSource(locks, r.owner, off);
      assert Overlap(x, r);
    }
  }

  /** Every acquire that weakens some offset signals the waiters. */
  lemma {:induction false} WeakeningSignals(locks: seq<FileLock>, r: FileLock, off: int)
    requires Sound(locks) && High(locks) && Safe(r)
    requires Weaker(TypeAt(Place(locks, r).locks, r.owner, off), TypeAt(locks, r.owner, off))
    ensures Place(locks, r).signals > 0
  {
    PlaceMeaning(locks, r, r.owner, off);
    var x := TypeAtSource(locks, r.owner, off);
    var a, own, b := CutSound(locks, r);
    MeetingSignals(own, x, r, off);
  }

  // ---------------------------------------------------------------------------------------------
  // Whole runs
  // ---------------------------------------------------------------------------------------------

  datatype Op = SetLock(request: FileLock) | Remove(owner: Owner)

  /** A request that locks does not start at the lowest offset. */
  predicate HighOp(op: Op) {
    op.SetLock? ==> op.request.ltype == UnLck || op.request.start > OFF_T_MIN
  }

  predicate ProperOp(op: Op) {
    op.SetLock? ==> op.request.start <= op.request.end
  }

  function Apply(locks: seq<FileLock>, op: Op): seq<FileLock> {
    match op
    case SetLock(r) => if Blocked(locks, r) then locks else Place(locks, r).locks
    case Remove(o) => Without(locks, o)
  }

  function Run(locks: seq<FileLock>, ops: seq<Op>): seq<FileLock>
    decreases |ops|
  {
    if ops == [] then locks else Run(Apply(locks, ops[0]), ops[1..])
  }

  lemma {:induction false} WithoutMembers(locks: seq<FileLock>, o: Owner)
    ensures forall x :: x in Without(locks, o) <==> x in locks && x.owner != o
  {
    if locks != [] {
      WithoutMembers(locks[1..], o);
      assert locks == [locks[0]] + locks[1..];
    }
  }

  lemma {:induction false} WithoutKeepsGroups(locks: seq<FileLock>, o: Owner)
    requires Grouped(locks)
    ensures Grouped(Without(locks, o))
  {
    if locks != [] {
      GroupedTail(locks);
      WithoutKeepsGroups(locks[1..], o);
      assert locks == [locks[0]] + locks[1..];
      if locks[0].owner != o { GroupedCons(locks[0], locks[1..], o); }
    }
  }

  lemma {:induction false} WithoutKeepsApart(locks: seq<FileLock>, o: Owner)
    requires Apart(locks)
    ensures Apart(Without(locks, o))
  {
    if locks != [] {
      var x, tail := locks[0], locks[1..];
      assert locks == [x] + tail;
      ApartConcat([x], tail);
      WithoutKeepsApart(tail, o);
      WithoutMembers(tail, o);
      assert x in [x];
      ApartConcat([x], Without(tail, o));
    }
  }

  lemma {:induction false} WithoutKeepsInv(locks: seq<FileLock>, o: Owner)
    requires Inv(locks)
    ensures Inv(Without(locks, o))
  {
    WithoutKeepsApart(locks, o);
    WithoutKeepsGroups(locks, o);
    WithoutMembers(locks, o);
  }

  lemma {:induction false} WithoutKeepsSound(locks: seq<FileLock>, o: Owner)
    requires Sound(locks)
    ensures Sound(Without(locks, o)) && (High(locks) ==> High(Without(locks, o)))
  {
    WithoutKeepsGroups(locks, o);
    WithoutMembers(locks, o);
  }

  lemma GroupedTail(locks: seq<FileLock>)
    requires Grouped(locks) && locks != []
    ensures Grouped(locks[1..])
  {
    var t := locks[1..];
    forall i, j, k | 0 <= i < j < k < |t| && t[i].owner == t[k].owner ensures t[j].owner == t[i].owner {
      assert locks[i + 1] == t[i] && locks[j + 1] == t[j] && locks[k + 1] == t[k];
    }
  }

  /** Where the elements of the filtered list come from, in order. */
  lemma {:induction false} WithoutIndex(locks: seq<FileLock>, o: Owner, j: nat, k: nat) returns (j': nat, k': nat)
    requires j < k < |Without(locks, o)|
    ensures j' < k' < |locks| && locks[j'] == Without(locks, o)[j] && locks[k'] == Without(locks, o)[k]
  {
    if locks[0].owner == o {
      var p, q := WithoutIndex(locks[1..], o, j, k);
      j', k' := p + 1, q + 1;
    } else if j == 0 {
      var rest := Without(locks[1..], o);
      WithoutMembers(locks[1..], o);
      assert rest[k - 1] in locks[1..];
      var q :| 0 <= q < |locks[1..]| && locks[1..][q] == rest[k - 1];
      j', k' := 0, q + 1;
    } else {
      var p, q := WithoutIndex(locks[1..], o, j - 1, k - 1);
      j', k' := p + 1, q + 1;
    }
  }

  lemma GroupedCons(x: FileLock, tail: seq<FileLock>, o: Owner)
    requires Grouped([x] + tail) && Grouped(Without(tail, o)) && x.owner != o
    ensures Grouped([x] + Without(tail, o))
  {
    var rest := Without(tail, o);
    var n, l := [x] + rest, [x] + tail;
    forall i, j, k | 0 <= i < j < k < |n| && n[i].owner == n[k].owner ensures n[j].owner == n[i].owner {
      if i == 0 {
        var p, q := WithoutIndex(tail, o, j - 1, k - 1);
        assert l[0] == x && l[p + 1] == n[j] && l[q + 1] == n[k];
      } else {
        assert rest[i - 1] == n[i] && rest[j - 1] == n[j] && rest[k - 1] == n[k];
      }
    }
  }

  lemma {:induction false} WithoutMeaning(locks: seq<FileLock>, o: Owner, p: Owner, off: int)
    ensures TypeAt(Without(locks, o), p, off) == if p == o then UnLck else TypeAt(locks, p, off)
  {
    if locks != [] { WithoutMeaning(locks[1..], o, p, off); }
  }

  lemma {:induction false} ApplyKeepsSound(locks: seq<FileLock>, op: Op)
    requires Sound(locks) && High(locks) && HighOp(op)
    ensures Sound(Apply(locks, op)) && High(Apply(locks, op))
  {
    match op
    case SetLock(r) =>
      if !Blocked(locks, r) {
        PlaceKeepsSound(locks, r);
        PlaceKeepsHigh(locks, r);
      }
    case Remove(o) => WithoutKeepsSound(locks, o);
  }

  /** Every state reached from a sound list by any requests and owner removals is sound: types form a map,
      writers exclude, owners are grouped. */
  lemma {:induction false} RunKeepsSound(locks: seq<FileLock>, ops: seq<Op>)
    requires Sound(locks) && High(locks) && forall op :: op in ops ==> HighOp(op)
    ensures Sound(Run(locks, ops)) && High(Run(locks, ops))
    decreases |ops|
  {
    if ops != [] {
      assert ops[0] in ops && forall op :: op in ops[1..] ==> op in ops;
      ApplyKeepsSound(locks, ops[0]);
      RunKeepsSound(Apply(locks, ops[0]), ops[1..]);
    }
  }

  /** Every state reached from a good list by requests that do not end before they start, and owner removal,
      is also disjoint and coalesced. */
  lemma {:induction false} RunKeepsInv(locks: seq<FileLock>, ops: seq<Op>)
    requires Inv(locks) && High(locks) && forall op :: op in ops ==> HighOp(op) && ProperOp(op)
    ensures Inv(Run(locks, ops)) && High(Run(locks, ops))
    decreases |ops|
  {
    if ops != [] {
      assert ops[0] in ops && forall op :: op in ops[1..] ==> op in ops;
      InvIsSound(locks);
      ApplyKeepsSound(locks, ops[0]);
      match ops[0] {
        case SetLock(r) => if !Blocked(locks, r) { PlaceKeepsInv(locks, r); }
        case Remove(o) => WithoutKeepsInv(locks, o);
      }
      RunKeepsInv(Apply(locks, ops[0]), ops[1..]);
    }
  }

  /** The map a run is meant to leave: each granted request overwrites its interval, a removal
      clears its owner. */
  function RunType(locks: seq<FileLock>, ops: seq<Op>, o: Owner, off: int): LockType {
    if ops == [] then TypeAt(locks, o, off) else
      var last := ops[|ops| - 1];
      var before := ops[..|ops| - 1];
      match last
      case SetLock(r) =>
        if !Blocked(Run(locks, before), r) && o == r.owner && r.Covers(off) then r.ltype
        else RunType(locks, before, o, off)
      case Remove(p) => if p == o then UnLck else RunType(locks, before, o, off)
  }

  lemma {:induction false} RunSnoc(locks: seq<FileLock>, ops: seq<Op>, op: Op)
    ensures Run(locks, ops + [op]) == Apply(Run(locks, ops), op)
    decreases |ops|
  {
    if ops == [] {
      assert [op][1..] == [];
    } else {
      assert (ops + [op])[1..] == ops[1..] + [op];
      RunSnoc(Apply(locks, ops[0]), ops[1..], op);
    }
  }

  lemma {:induction false} RunMeaning(locks: seq<FileLock>, ops: seq<Op>, o: Owner, off: int)
    requires Sound(locks) && High(locks) && forall op :: op in ops ==> HighOp(op)
    ensures TypeAt(Run(locks, ops), o, off) == RunType(locks, ops, o, off)
  {
    if ops != [] {
      var before, last := ops[..|ops| - 1], ops[|ops| - 1];
      assert ops == before + [last];
      assert last in ops;
      RunSnoc(locks, before, last);
      RunMeaning(locks, before, o, off);
      assert forall op :: op in before ==> op in ops;
      RunKeepsSound(locks, before);
      match last {
        case SetLock(r) => if !Blocked(Run(locks, before), r) { PlaceMeaning(Run(locks, before), r, o, off); }
        case Remove(p) => WithoutMeaning(Run(locks, before), p, o, off);
      }
    }
  }

  // ---------------------------------------------------------------------------------------------
  // What is refused
  // ---------------------------------------------------------------------------------------------

  /** Some byte of a locking request is locked by another owner, and one of the two would write. */
  ghost predicate MustRefuse(locks: seq<FileLock>, r: FileLock) {
    r.ltype != UnLck && exists o, off ::
      o != r.owner && r.Covers(off) && TypeAt(locks, o, off) != UnLck
      && (TypeAt(locks, o, off) == WrLck || r.ltype == WrLck)
  }

  /** A request is refused exactly when it must be. */
  lemma {:induction false} RefusedExactly(locks: seq<FileLock>, r: FileLock)
    requires Inv(locks) && r.start <= r.end
    ensures Blocked(locks, r) <==> MustRefuse(locks, r)
  {
    InvIsSound(locks);
    if Blocked(locks, r) {
      var i :| 0 <= i < |locks| && Conflict(locks[i], r);
      var x := locks[i];
      assert x in locks && Proper(x);
      var off := if x.start >= r.start then x.start else r.start;
      assert x.Covers(off) && r.Covers(off);
      TypeAtMember(locks, x, off);
      assert TypeAt(locks, x.owner, off) == x.ltype;
    }
    if MustRefuse(locks, r) { RefusedWhenItMust(locks, r); }
  }

  /** In any list, a request that must be refused is. */
  lemma {:induction false} RefusedWhenItMust(locks: seq<FileLock>, r: FileLock)
    requires MustRefuse(locks, r)
    ensures Blocked(locks, r)
  {
    var o, off :| o != r.owner && r.Covers(off) && TypeAt(locks, o, off) != UnLck
                  && (TypeAt(locks, o, off) == WrLck || r.ltype == WrLck);
    var x := TypeAtSource(locks, o, off);
    var i :| 0 <= i < |locks| && locks[i] == x;
    assert Conflict(locks[i], r);
  }

  /** Locks as a map from owners and bytes to types, without a list: a request is granted when no byte
      of it is locked by another owner with one of the two writing, and then overwrites its bytes. */
  ghost function ByteMap(ops: seq<Op>, o: Owner, off: int): LockType
    decreases |ops|
  {
    if ops == [] then UnLck else
      var last, before := ops[|ops| - 1], ops[..|ops| - 1];
      match last
      case Remove(p) => if p == o then UnLck else ByteMap(before, o, off)
      case SetLock(r) =>
        if o == r.owner && r.start <= off <= r.end &&
           (r.ltype == UnLck || forall p, x :: p != r.owner && r.start <= x <= r.end ==>
              if r.ltype == WrLck then ByteMap(before, p, x) == UnLck else ByteMap(before, p, x) != WrLck)
        then r.ltype else ByteMap(before, o, off)
  }

  ghost predicate SameMap(ops: seq<Op>) {
    forall o, off :: TypeAt(Run([], ops), o, off) == ByteMap(ops, o, off)
  }

  /** The map grants the request, as ByteMap says it. */
  ghost predicate MapGrants(ops: seq<Op>, r: FileLock) {
    r.ltype == UnLck || forall p, x :: p != r.owner && r.start <= x <= r.end ==>
      if r.ltype == WrLck then ByteMap(ops, p, x) == UnLck else ByteMap(ops, p, x) != WrLck
  }

  lemma {:induction false} MapRefuses(ops: seq<Op>, r: FileLock)
    requires SameMap(ops)
    ensures MustRefuse(Run([], ops), r) <==> !MapGrants(ops, r)
  {
    var locks := Run([], ops);
    if MustRefuse(locks, r) {
      var o, off :| o != r.owner && r.Covers(off) && TypeAt(locks, o, off) != UnLck
                    && (TypeAt(locks, o, off) == WrLck || r.ltype == WrLck);
      assert ByteMap(ops, o, off) == TypeAt(locks, o, off);
    }
    if !MapGrants(ops, r) {
      var p, x :| p != r.owner && r.start <= x <= r.end
        && !(if r.ltype == WrLck then ByteMap(ops, p, x) == UnLck else ByteMap(ops, p, x) != WrLck);
      assert ByteMap(ops, p, x) == TypeAt(locks, p, x) && r.Covers(x);
    }
  }

  lemma {:induction false} MapSnoc(before: seq<Op>, r: FileLock, o: Owner, off: int)
    ensures ByteMap(before + [SetLock(r)], o, off) ==
            if o == r.owner && r.Covers(off) && MapGrants(before, r) then r.ltype else ByteMap(before, o, off)
  {
    var ops := before + [SetLock(r)];
    assert ops[..|ops| - 1] == before && ops[|ops| - 1] == SetLock(r);
  }

  lemma {:induction false} ByteMapStep(before: seq<Op>, last: Op, o: Owner, off: int)
    requires SameMap(before) && Inv(Run([], before)) && High(Run([], before)) && HighOp(last) && ProperOp(last)
    ensures TypeAt(Apply(Run([], before), last), o, off) == ByteMap(before + [last], o, off)
  {
    var locks := Run([], before);
    match last {
      case SetLock(r) =>
        InvIsSound(locks);
        RefusedExactly(locks, r);
        MapRefuses(before, r);
        MapSnoc(before, r, o, off);
        if !Blocked(locks, r) { PlaceMeaning(locks, r, o, off); }
      case Remove(p) =>
        WithoutMeaning(locks, p, o, off);
        var ops := before + [last];
        assert ops[..|ops| - 1] == before && ops[|ops| - 1] == last;
    }
  }

  /** From an empty list, requests that do not end before they start and owner removals leave a list that
      denotes this map, and refuse just what it refuses. */
  lemma {:induction false} ListIsByteMap(ops: seq<Op>)
    requires forall op :: op in ops ==> HighOp(op) && ProperOp(op)
    ensures SameMap(ops)
  {
    if ops != [] {
      var before, last := ops[..|ops| - 1], ops[|ops| - 1];
      assert ops == before + [last] && last in ops;
      assert forall op :: op in before ==> op in ops;
      ListIsByteMap(before);
      assert Inv([]) && High([]);
      RunKeepsInv([], before);
      RunSnoc([], before, last);
      forall o, off ensures TypeAt(Run([], ops), o, off) == ByteMap(ops, o, off) {
        ByteMapStep(before, last, o, off);
      }
    }
  }
}
