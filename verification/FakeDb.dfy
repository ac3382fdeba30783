/**
 The path and inode tables of fakefs (fs/fake-db.c): rows as maps, statements as map updates. Subtrees
 are selected by a byte range, as the queries do.
 */
module FakeDb {

  type Inode = nat

  datatype Stat = Stat(mode: nat, uid: nat, gid: nat, rdev: nat)

  /** The order of blobs: byte by byte, a prefix before what it is a prefix of. */
  predicate Less(a: string, b: string) {
    b != "" && (a == "" || a[0] < b[0] || (a[0] == b[0] && Less(a[1..], b[1..])))
  }

  /** The where clause of path_rename and path_delete_tree. */
  predicate InRange(p: string, dir: string) {
    (!Less(p, dir + "/") && Less(p, dir + "0")) || p == dir
  }

  /** p is dir, or below it. */
  predicate Under(p: string, dir: string) {
    |p| >= |dir| && p[..|dir|] == dir && (|p| > |dir| ==> p[|dir|] == '/')
  }

  /** p is dir with nothing, or a slash and anything, behind it. */
  ghost predicate GoesOn(p: string, dir: string) {
    exists rest :: p == dir + rest && (rest == "" || rest[0] == '/')
  }

  lemma {:induction false} UnderMeaning(p: string, dir: string)
    ensures Under(p, dir) <==> GoesOn(p, dir)
  {
    if Under(p, dir) { assert p == dir + p[|dir|..]; }
    if rest :| p == dir + rest && (rest == "" || rest[0] == '/') { assert p[..|dir|] == dir; }
  }

  lemma {:induction false} RangeStep(p: string, dir: string, last: char)
    requires p != "" && dir != "" && p[0] == dir[0]
    ensures Less(p, dir + [last]) == Less(p[1..], dir[1..] + [last])
    ensures Less(dir + [last], p) == Less(dir[1..] + [last], p[1..])
  {
    assert (dir + [last])[1..] == dir[1..] + [last];
  }

  /** The byte range from dir/ to dir0, with dir itself, is exactly the subtree: '0' comes right after '/'. */
  lemma {:induction false} RangeIsSubtree(p: string, dir: string)
    ensures InRange(p, dir) <==> Under(p, dir)
    decreases |dir|
  {
    if dir == "" {
      assert dir + "/" == "/" && dir + "0" == "0";
      if p != "" {
        assert "/"[1..] == "" && "0"[1..] == "";
        assert Less(p, "/") <==> p[0] < '/';
        assert Less(p, "0") <==> p[0] < '0';
      }
    } else if p != "" && p[0] == dir[0] {
      RangeIsSubtree(p[1..], dir[1..]);
      RangeStep(p, dir, '/');
      RangeStep(p, dir, '0');
      assert p == dir <==> p[1..] == dir[1..];
      UnderStep(p, dir);
    } else {
      assert (dir + "/")[0] == dir[0] && (dir + "0")[0] == dir[0];
      assert !Under(p, dir) by { UnderHead(p, dir); }
    }
  }

  lemma UnderHead(p: string, dir: string)
    requires dir != ""
    ensures Under(p, dir) ==> p != "" && p[0] == dir[0]
  {
    if |p| >= |dir| { assert p[..|dir|][0] == p[0]; }
  }

  lemma UnderStep(p: string, dir: string)
    requires p != "" && dir != "" && p[0] == dir[0]
    ensures Under(p, dir) <==> Under(p[1..], dir[1..])
  {
    if |p| >= |dir| {
      assert p[..|dir|] == [p[0]] + p[1..][..|dir| - 1] && dir == [dir[0]] + dir[1..];
      if |p| > |dir| { assert p[|dir|] == p[1..][|dir| - 1]; }
    }
  }

  /** sqlite_func_change_prefix */
  function ChangePrefix(p: string, n: nat, to: string): string
    requires n <= |p|
  {
    to + p[n..]
  }

  predicate Apart(a: string, b: string) { !Under(a, b) && !Under(b, a) }

  /** Two directories above the same path are one above the other. */
  lemma Comparable(p: string, a: string, b: string)
    requires Under(p, a) && Under(p, b)
    ensures Under(a, b) || Under(b, a)
  {
    if |a| <= |b| {
      assert b[..|a|] == p[..|b|][..|a|] == p[..|a|];
      if |b| > |a| { assert b[|a|] == p[..|b|][|a|]; }
    } else {
      assert a[..|b|] == p[..|a|][..|b|] == p[..|b|];
      assert a[|b|] == p[..|a|][|b|];
    }
  }

  lemma MovedIsUnder(p: string, src: string, dst: string)
    requires Under(p, src)
    ensures var q := ChangePrefix(p, |src|, dst);
            Under(q, dst) && |q| >= |dst| && ChangePrefix(q, |dst|, src) == p
  {
    var q := dst + p[|src|..];
    assert q[..|dst|] == dst && q[|dst|..] == p[|src|..];
    assert p == src + p[|src|..];
    if |q| > |dst| { assert q[|dst|] == p[|src|..][0]; }
  }

  function DeleteTree(paths: map<string, Inode>, dir: string): map<string, Inode> {
    map p | p in paths && !Under(p, dir) :: paths[p]
  }

  /** The rows moved by a rename. */
  function Moved(paths: map<string, Inode>, src: string, dst: string): map<string, Inode> {
    map q | q in Targets(paths, src, dst) :: paths[Source(paths, src, dst, q)]
  }

  function Targets(paths: map<string, Inode>, src: string, dst: string): set<string> {
    set p | p in paths && Under(p, src) :: ChangePrefix(p, |src|, dst)
  }

  /** Where the row now at q came from. */
  function Source(paths: map<string, Inode>, src: string, dst: string, q: string): (p: string)
    requires q in Targets(paths, src, dst)
    ensures p in paths && Under(p, src) && ChangePrefix(p, |src|, dst) == q
  {
    var p0 :| p0 in paths && Under(p0, src) && ChangePrefix(p0, |src|, dst) == q;
    MovedIsUnder(p0, src, dst);
    ChangePrefix(q, |dst|, src)
  }

  /** The rows after path_rename: a row already at a target is replaced. */
  function Renamed(paths: map<string, Inode>, src: string, dst: string): map<string, Inode> {
    DeleteTree(paths, src) + Moved(paths, src, dst)
  }

  /** What a rename does to a single path. */
  lemma RenamedAt(paths: map<string, Inode>, src: string, dst: string, q: string)
    requires Apart(src, dst)
    ensures var after := Renamed(paths, src, dst);
            if Under(q, dst) then
              var p := ChangePrefix(q, |dst|, src);
              Under(p, src) && ChangePrefix(p, |src|, dst) == q
              && (if p in paths then q in after && after[q] == paths[p]
                  else (q in after <==> q in paths) && (q in paths ==> after[q] == paths[q]))
            else if Under(q, src) then q !in after
            else (q in after <==> q in paths) && (q in paths ==> after[q] == paths[q])
  {
    if Under(q, dst) && Under(q, src) { Comparable(q, src, dst); }
    if Under(q, dst) {
      MovedIsUnder(q, dst, src);
      var p := ChangePrefix(q, |dst|, src);
      if p in paths { assert q in Targets(paths, src, dst); }
      if q in Targets(paths, src, dst) { MovedIsUnder(Source(paths, src, dst, q), src, dst); }
    } else if q in Targets(paths, src, dst) {
      MovedIsUnder(Source(paths, src, dst, q), src, dst);
    }
  }

  /** Moving a subtree to an unused name and back changes nothing. */
  lemma RenameRoundTrip(paths: map<string, Inode>, src: string, dst: string)
    requires Apart(src, dst) && forall p :: p in paths ==> !Under(p, dst)
    ensures Renamed(Renamed(paths, src, dst), dst, src) == paths
  {
    var there := Renamed(paths, src, dst);
    var back := Renamed(there, dst, src);
    forall q ensures (q in back <==> q in paths) && (q in paths ==> back[q] == paths[q]) {
      RenamedAt(there, dst, src, q);
      RenamedAt(paths, src, dst, q);
      if Under(q, src) {
        MovedIsUnder(q, src, dst);
        RenamedAt(paths, src, dst, ChangePrefix(q, |src|, dst));
      }
    }
  }

  class Database {
    var paths: map<string, Inode>
    var stats: map<Inode, Stat>

    /** Every row of paths refers to a row of stats, and 0 is no inode. */
    ghost predicate Valid()
      reads this
    {
      0 !in stats && forall p :: p in paths ==> paths[p] in stats
    }

    constructor ()
      ensures Valid() && paths == map[] && stats == map[]
    {
      paths, stats := map[], map[];
    }

    /** path_get_inode */
    method GetInode(path: string) returns (inode: Inode)
      requires Valid()
      ensures inode == if path in paths then paths[path] else 0
      ensures inode == 0 <==> path !in paths
    {
      inode := if path in paths then paths[path] else 0;
    }

    /** path_create: the inode is one the tables have never heard of. */
    method Create(path: string, stat: Stat) returns (inode: Inode)
      requires Valid()
      modifies this
      ensures Valid() && inode == NextRow(old(stats).Keys)
      ensures paths == old(paths)[path := inode] && stats == old(stats)[inode := stat]
    {
      inode := NextRow(stats.Keys);
      stats := stats[inode := stat];
      paths := paths[path := inode];
    }

    /** path_rename */
    method Rename(src: string, dst: string)
      requires Valid() && Apart(src, dst)
      modifies this`paths
      ensures Valid() && paths == Renamed(old(paths), src, dst)
    {
      forall p | p in paths ensures InRange(p, src) <==> Under(p, src) { RangeIsSubtree(p, src); }
      var targets := set p | p in paths && InRange(p, src) :: ChangePrefix(p, |src|, dst);
      assert targets == Targets(paths, src, dst);
      var moved := map q | q in targets :: paths[Source(paths, src, dst, q)];
      var stay := map p | p in paths && !InRange(p, src) :: paths[p];
      assert stay == DeleteTree(paths, src) && moved == Moved(paths, src, dst);
      paths := stay + moved;
    }

    /** path_delete_tree */
    method DeleteSubtree(path: string)
      requires Valid()
      modifies this`paths
      ensures Valid() && paths == DeleteTree(old(paths), path)
    {
      forall p | p in paths ensures InRange(p, path) <==> Under(p, path) { RangeIsSubtree(p, path); }
      paths := map p | p in paths && !InRange(p, path) :: paths[p];
    }
  }

  /** A row id greater than all in use. */
  function NextRow(used: set<nat>): (n: nat)
    ensures n !in used && n > 0
  {
    if used == {} then 1 else MaxOf(used) + 1
  }

  ghost predicate IsMax(used: set<nat>, m: nat) { m in used && forall x :: x in used ==> x <= m }

  function MaxOf(used: set<nat>): (m: nat)
    requires used != {}
    ensures IsMax(used, m)
  {
    MaxExists(used);
    var m :| m in used && forall x :: x in used ==> x <= m;
    m
  }

  lemma {:induction false} MaxExists(used: set<nat>)
    requires used != {}
    ensures exists m :: IsMax(used, m)
    decreases |used|
  {
    var x :| x in used;
    if used == {x} {
      assert IsMax(used, x);
    } else {
      MaxExists(used - {x});
      var m :| IsMax(used - {x}, m);
      MaxWithOneMore(used, x, m);
    }
  }

  lemma MaxWithOneMore(used: set<nat>, x: nat, m: nat)
    requires x in used && IsMax(used - {x}, m)
    ensures IsMax(used, if m < x then x else m)
  {
    forall y | y in used ensures y <= x || y <= m { if y != x { assert y in used - {x}; } }
  }
}
