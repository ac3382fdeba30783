/**
 Binding a host path over a guest path, and taking the bind away again (fs/fake.c): what was at the mount
 point is moved aside, in the host tree and in the tables, and put back. Every host call succeeds here.
 */
module BindStash {
  import opened FakeDb
  import opened BindRoutes

  const SAVED: string := ".ish-bind-saved"

  function SavedName(path: string): string { path + SAVED }

  /** What the data directory holds under a name: one of our links, or something of the guest's, with
      everything below it. */
  datatype Tree = Link(target: string) | Real(content: nat)

  lemma SavedApart(path: string)
    ensures Apart(path, SavedName(path))
  {
    assert SavedName(path)[..|path|] == path && SavedName(path)[|path|] == '.';
  }

  // ---------------------------------------------------------------------------------------------
  // The host tree
  // ---------------------------------------------------------------------------------------------

  /** bind_mount_stash */
  function StashTree(host: map<string, Tree>, path: string): map<string, Tree> {
    if path !in host then host
    else if host[path].Link? then host - {path}
    else if SavedName(path) in host then host - {path}
    else (host - {path})[SavedName(path) := host[path]]
  }

  /** bind_mount_restore */
  function RestoreTree(host: map<string, Tree>, path: string): map<string, Tree> {
    var unlinked := if path in host && host[path].Link? then host - {path} else host;
    if SavedName(path) in unlinked then (unlinked - {SavedName(path)})[path := unlinked[SavedName(path)]] else unlinked
  }

  // ---------------------------------------------------------------------------------------------
  // The tables
  // ---------------------------------------------------------------------------------------------

  /** bind_meta_stash */
  function StashRows(paths: map<string, Inode>, path: string): map<string, Inode> {
    if SavedName(path) in paths then DeleteTree(paths, path) else Renamed(paths, path, SavedName(path))
  }

  /** bind_meta_restore */
  function RestoreRows(paths: map<string, Inode>, path: string): map<string, Inode> {
    Renamed(DeleteTree(paths, path), SavedName(path), path)
  }

  // ---------------------------------------------------------------------------------------------
  // Both
  // ---------------------------------------------------------------------------------------------

  datatype World = World(host: map<string, Tree>, paths: map<string, Inode>, stats: map<Inode, Stat>)

  ghost predicate Sound(w: World) {
    0 !in w.stats && forall p :: p in w.paths ==> w.paths[p] in w.stats
  }

  /** path_create */
  function MakeRow(w: World, p: string, stat: Stat): World {
    var inode := NextRow(w.stats.Keys);
    w.(paths := w.paths[p := inode], stats := w.stats[inode := stat])
  }

  /** The mount point has a row: a new one, or its own with the mode of the mount. */
  function EnsuredRow(w: World, path: string, mode: nat): World
    requires path in w.paths ==> w.paths[path] in w.stats
  {
    if path !in w.paths then MakeRow(w, path, Stat(mode, 0, 0, 0))
    else w.(stats := w.stats[w.paths[path] := w.stats[w.paths[path]].(mode := mode)])
  }

  /** fakefs_bind_mount: `changed` when the mount was not already one of this host path. */
  function Bound(w: World, path: string, target: string, mode: nat, changed: bool): World
    requires Sound(w)
  {
    if changed then
      var stashed := World(StashTree(w.host, path)[path := Link(target)], StashRows(w.paths, path), w.stats);
      StashKeepsSound(w, path);
      EnsuredRow(stashed, path, mode)
    else EnsuredRow(w, path, mode)
  }

  /** fakefs_bind_unmount */
  function Unbound(w: World, path: string): World {
    w.(host := RestoreTree(w.host, path), paths := RestoreRows(w.paths, path))
  }

  lemma StashKeepsSound(w: World, path: string)
    requires Sound(w)
    ensures forall p :: p in StashRows(w.paths, path) ==> StashRows(w.paths, path)[p] in w.stats
  {}

  function TopMode(readOnly: bool, file: bool): nat {
    if file then 0x8000 + (if readOnly then 0x124 else 0x1A4) else 0x4000 + (if readOnly then 0x16D else 0x1ED)
  }

  /** Whether the bit of weight `bit` is set. */
  predicate BitSet(mode: nat, bit: nat)
    requires bit > 0
  {
    mode / bit % 2 == 1
  }

  /** The type of what is bound, S_IFREG or S_IFDIR. All may read it, all may search a directory and none
      execute a file; its owner may write exactly if the bind is not read-only, and nobody else ever. */
  predicate PointModeOk(mode: nat, readOnly: bool, file: bool) {
    && mode / 4096 == (if file then 8 else 4) && mode % 4096 < 512
    && (BitSet(mode, 128) <==> !readOnly) && !BitSet(mode, 16) && !BitSet(mode, 2)
    && BitSet(mode, 256) && BitSet(mode, 32) && BitSet(mode, 4)
    && (BitSet(mode, 64) <==> !file) && (BitSet(mode, 8) <==> !file) && (BitSet(mode, 1) <==> !file)
  }

  /** After a bind the mount point has a row with the type and the permissions of what is bound. A row that
      stays keeps the rest of its stat, no other stat changes, and a bind to another host path leaves a
      link to it. */
  lemma {:induction false} PointMode(w: World, path: string, target: string, readOnly: bool, file: bool, changed: bool)
    requires Sound(w)
    ensures var after := Bound(w, path, target, TopMode(readOnly, file), changed);
      && path in after.paths && after.paths[path] in after.stats
      && var n, mode := after.paths[path], after.stats[after.paths[path]].mode;
         && PointModeOk(mode, readOnly, file)
         && (!changed && path in w.paths ==> n == w.paths[path] && after.stats[n] == w.stats[n].(mode := mode))
         && (forall m :: m in w.stats && m != n ==> m in after.stats && after.stats[m] == w.stats[m])
         && (changed ==> path in after.host && after.host[path] == Link(target))
  {
    StashKeepsSound(w, path);
    ModeBits(readOnly, file);
  }

  lemma {:induction false} ModeBits(readOnly: bool, file: bool)
    ensures PointModeOk(TopMode(readOnly, file), readOnly, file)
  {
    assert TopMode(readOnly, file) in {33060, 33188, 16749, 16877};
  }

  /** fakefs, as far as binds concern it. */
  class Fakefs {
    var table: Table
    var host: map<string, Tree>
    const db: Database

    ghost predicate Valid()
      reads this, db
    {
      db.Valid() && |table| == MAX_BIND_MOUNTS && PathsDiffer(table)
    }

    ghost function Now(): World
      reads this, db
    {
      World(host, db.paths, db.stats)
    }

    constructor ()
      ensures Valid() && fresh(db)
    {
      table := seq(MAX_BIND_MOUNTS, _ => None);
      host := map[];
      db := new Database();
    }

    /** The active slot of a guest path, or else a free one. */
    method FindSlot(path: string) returns (slot: Option<nat>, active: bool)
      requires Valid()
      ensures active ==> slot.Some? && slot.value < |table| && table[slot.value].Some? && table[slot.value].value.path == path
      ensures !active ==> forall i :: 0 <= i < |table| && table[i].Some? ==> table[i].value.path != path
      ensures !active && slot.Some? ==> slot.value < |table| && table[slot.value].None?
      ensures slot.None? ==> forall i :: 0 <= i < |table| ==> table[i].Some?
    {
      var i := 0;
      while i < |table|
        invariant i <= |table| && forall j :: 0 <= j < i && table[j].Some? ==> table[j].value.path != path
      {
        if table[i].Some? && table[i].value.path == path { return Some(i), true; }
        i := i + 1;
      }
      i := 0;
      while i < |table|
        invariant i <= |table| && forall j :: 0 <= j < i ==> table[j].Some?
      {
        if table[i].None? { return Some(i), false; }
        i := i + 1;
      }
      return None, false;
    }

    /** bind_meta_stash */
    method MetaStash(path: string)
      requires Valid()
      modifies db`paths
      ensures Valid() && db.paths == StashRows(old(db.paths), path)
    {
      SavedApart(path);
      var saved := db.GetInode(SavedName(path));
      if saved != 0 { db.DeleteSubtree(path); } else { db.Rename(path, SavedName(path)); }
    }

    /** bind_meta_restore */
    method MetaRestore(path: string)
      requires Valid()
      modifies db`paths
      ensures Valid() && db.paths == RestoreRows(old(db.paths), path)
    {
      SavedApart(path);
      db.DeleteSubtree(path);
      db.Rename(SavedName(path), path);
    }

    method EnsureRow(path: string, mode: nat)
      requires Valid()
      modifies db
      ensures Valid() && Now() == EnsuredRow(old(Now()), path, mode)
    {
      var inode := db.GetInode(path);
      if inode == 0 {
        inode := db.Create(path, Stat(mode, 0, 0, 0));
      } else {
        db.stats := db.stats[inode := db.stats[inode].(mode := mode)];
      }
    }

    /** fakefs_bind_mount of a canonical guest path over an existing host path; false when no slot is free. */
    method Bind(path: string, target: string, readOnly: bool, file: bool) returns (ok: bool)
      requires Valid()
      modifies this`table, this`host, db
      ensures Valid() && ok == (HostOf(old(table), path).Some? || exists i :: 0 <= i < |old(table)| && old(table)[i].None?)
      ensures !ok ==> table == old(table) && Now() == old(Now())
      ensures ok ==> HostOf(table, path) == Some(target) && (forall p :: p != path ==> HostOf(table, p) == HostOf(old(table), p))
      ensures Sound(old(Now()))
      ensures ok ==> Now() == Bound(old(Now()), path, target, TopMode(readOnly, file), HostOf(old(table), path) != Some(target))
    {
      var slot, active := FindSlot(path);
      SlotHost(table, path, slot, active);
      if slot.None? { return false; }
      var changed := !(active && table[slot.value].value.host == target);
      SetSlot(table, slot.value, Some(Mount(path, target, readOnly)), path);
      table := table[slot.value := Some(Mount(path, target, readOnly))];
      if changed {
        host := StashTree(host, path);
        host := host[path := Link(target)];
        MetaStash(path);
      }
      EnsureRow(path, TopMode(readOnly, file));
      return true;
    }

    /** fakefs_bind_unmount of a canonical guest path; false when nothing is mounted there. */
    method Unbind(path: string) returns (ok: bool)
      requires Valid()
      modifies this`table, this`host, db
      ensures Valid() && ok == HostOf(old(table), path).Some?
      ensures !ok ==> table == old(table) && Now() == old(Now())
      ensures ok ==> HostOf(table, path).None? && (forall p :: p != path ==> HostOf(table, p) == HostOf(old(table), p))
      ensures ok ==> Now() == Unbound(old(Now()), path)
    {
      var slot, active := FindSlot(path);
      SlotHost(table, path, slot, active);
      if !active { return false; }
      SetSlot(table, slot.value, None, path);
      table := table[slot.value := None];
      host := RestoreTree(host, path);
      MetaRestore(path);
      return true;
    }
  }

  /** What is mounted at a guest path. */
  function HostOf(table: Table, path: string): Option<string>
    decreases |table|
  {
    if table == [] then None
    else if table[0].Some? && table[0].value.path == path then Some(table[0].value.host)
    else HostOf(table[1..], path)
  }

  lemma {:induction false} HostAt(table: Table, path: string, i: nat)
    requires i < |table| && table[i].Some? && table[i].value.path == path
    requires forall j :: 0 <= j < i && table[j].Some? ==> table[j].value.path != path
    ensures HostOf(table, path) == Some(table[i].value.host)
    decreases i
  {
    if i > 0 {
      assert table[1..][i - 1] == table[i];
      forall j | 0 <= j < i - 1 && table[1..][j].Some? ensures table[1..][j].value.path != path { assert table[1..][j] == table[j + 1]; }
      HostAt(table[1..], path, i - 1);
    }
  }

  lemma {:induction false} HostNowhere(table: Table, path: string)
    requires forall j :: 0 <= j < |table| && table[j].Some? ==> table[j].value.path != path
    ensures HostOf(table, path) == None
  {
    if table != [] {
      forall j | 0 <= j < |table| - 1 && table[1..][j].Some? ensures table[1..][j].value.path != path { assert table[1..][j] == table[j + 1]; }
      HostNowhere(table[1..], path);
    }
  }

  lemma SlotHost(table: Table, path: string, slot: Option<nat>, active: bool)
    requires PathsDiffer(table)
    requires active ==> slot.Some? && slot.value < |table| && table[slot.value].Some? && table[slot.value].value.path == path
    requires !active ==> forall i :: 0 <= i < |table| && table[i].Some? ==> table[i].value.path != path
    ensures HostOf(table, path) == if active then Some(table[slot.value].value.host) else None
  {
    if active { HostAt(table, path, slot.value); } else { HostNowhere(table, path); }
  }

  /** Filling or freeing the slot of a path changes what is mounted there and nowhere else. */
  lemma SetSlot(table: Table, i: nat, slot: Option<Mount>, path: string)
    requires PathsDiffer(table) && i < |table| && (slot.Some? ==> slot.value.path == path)
    requires forall j :: 0 <= j < |table| && j != i && table[j].Some? ==> table[j].value.path != path
    requires table[i].Some? ==> table[i].value.path == path
    ensures var after := table[i := slot];
            && PathsDiffer(after) && HostOf(after, path) == (if slot.Some? then Some(slot.value.host) else None)
            && (forall p :: p != path ==> HostOf(after, p) == HostOf(table, p))
  {
    var after := table[i := slot];
    if slot.Some? { HostAt(after, path, i); } else { HostNowhere(after, path); }
    forall p | p != path ensures HostOf(after, p) == HostOf(table, p) { OtherPath(table, i, slot, p); }
  }

  lemma {:induction false} OtherPath(table: Table, i: nat, slot: Option<Mount>, p: string)
    requires i < |table| && (slot.Some? ==> slot.value.path != p) && (table[i].Some? ==> table[i].value.path != p)
    ensures HostOf(table[i := slot], p) == HostOf(table, p)
    decreases i
  {
    if i == 0 {
      assert table[0 := slot][1..] == table[1..];
    } else {
      assert table[i := slot][1..] == table[1..][i - 1 := slot];
      OtherPath(table[1..], i - 1, slot, p);
    }
  }

  // ---------------------------------------------------------------------------------------------
  // Bind and unbind are an exact undo
  // ---------------------------------------------------------------------------------------------

  /** What can happen while the bind is in place: the mount is moved to another host path or bound again,
      rows for what is found under it are made, and rows are dropped. */
  datatype Step = Rebind(target: string, mode: nat, changed: bool) | Make(p: string, stat: Stat) | Forget(p: string)

  function Next(w: World, path: string, step: Step): World
    requires Sound(w)
  {
    match step
    case Rebind(target, mode, changed) => Bound(w, path, target, mode, changed)
    case Make(p, stat) => MakeRow(w, p, stat)
    case Forget(p) => w.(paths := w.paths - {p})
  }

  lemma NextIsSound(w: World, path: string, step: Step)
    requires Sound(w)
    ensures Sound(Next(w, path, step))
  {
    match step
    case Rebind(target, mode, changed) => StashKeepsSound(w, path);
    case _ =>
  }

  function Run(w: World, path: string, steps: seq<Step>): World
    requires Sound(w)
    decreases |steps|
  {
    if steps == [] then w else
      NextIsSound(w, path, steps[0]);
      Run(Next(w, path, steps[0]), path, steps[1..])
  }

  /** Everything that happens stays below the mount point. */
  predicate Within(path: string, steps: seq<Step>) {
    forall i :: 0 <= i < |steps| ==> match steps[i]
      case Rebind(_, _, _) => true
      case Make(p, _) => Under(p, path)
      case Forget(p) => Under(p, path)
  }

  /** A rebind to another host path. */
  predicate Moving(step: Step) { step.Rebind? && step.changed }

  predicate Moves(steps: seq<Step>) {
    steps != [] && (Moving(steps[0]) || Moves(steps[1..]))
  }

  /** The mount point's own row is never dropped. */
  predicate KeepsPoint(path: string, steps: seq<Step>) {
    forall i :: 0 <= i < |steps| ==> steps[i] != Forget(path)
  }

  /** Nothing has the name things are moved aside to, and the mount point is not one of our links. */
  ghost predicate Unused(w: World, path: string) {
    && SavedName(path) !in w.host && (path in w.host ==> w.host[path].Real?)
    && forall p :: p in w.paths ==> !Under(p, SavedName(path))
  }

  /** The tables while the bind is in place: the original rows under the saved name, only new inodes below
      the mount point, everything else as it was. */
  ghost predicate RowsAside(orig: World, w: World, path: string) {
    && (forall p :: p in w.paths && Under(p, path) ==> w.paths[p] !in orig.stats)
    && DeleteTree(w.paths, path) == Renamed(orig.paths, path, SavedName(path))
    && (forall n :: n in orig.stats ==> n in w.stats && w.stats[n] == orig.stats[n])
  }

  /** And the host tree. */
  ghost predicate TreeAside(orig: World, w: World, path: string) {
    && path in w.host && w.host[path].Link?
    && w.host - {path} == if path in orig.host then (orig.host - {path})[SavedName(path) := orig.host[path]] else orig.host
  }

  lemma SavedRowExists(orig: World, w: World, path: string)
    requires RowsAside(orig, w, path) && path in orig.paths
    ensures SavedName(path) in w.paths
  {
    SavedApart(path);
    RenamedAt(orig.paths, path, SavedName(path), SavedName(path));
    assert ChangePrefix(SavedName(path), |SavedName(path)|, path) == path;
    assert SavedName(path) in DeleteTree(w.paths, path);
  }

  /** Rows below the mount point do not show outside it. */
  lemma {:induction false} DeletedIgnores(paths: map<string, Inode>, p: string, n: Inode, dir: string)
    requires Under(p, dir)
    ensures DeleteTree(paths[p := n], dir) == DeleteTree(paths, dir)
    ensures DeleteTree(paths - {p}, dir) == DeleteTree(paths, dir)
    ensures DeleteTree(DeleteTree(paths, dir), dir) == DeleteTree(paths, dir)
  {}

  lemma {:induction false} StashedHasNone(paths: map<string, Inode>, path: string)
    ensures var stashed := Renamed(paths, path, SavedName(path));
            (forall p :: p in stashed ==> !Under(p, path)) && DeleteTree(stashed, path) == stashed
  {
    var saved := SavedName(path);
    SavedApart(path);
    var stashed := Renamed(paths, path, saved);
    forall p | Under(p, path) ensures p !in stashed {
      RenamedAt(paths, path, saved, p);
      assert !Under(p, saved) by { if Under(p, saved) { Comparable(p, path, saved); } }
    }
  }

  lemma {:induction false} FirstBindTree(host: map<string, Tree>, path: string, target: string)
    requires SavedName(path) !in host && (path in host ==> host[path].Real?)
    ensures var after := StashTree(host, path)[path := Link(target)];
            after - {path} == if path in host then (host - {path})[SavedName(path) := host[path]] else host
  {
    assert |path| != |SavedName(path)|;
  }

  /** The first bind. */
  lemma {:induction false} FirstBind(orig: World, path: string, target: string, mode: nat)
    requires Sound(orig) && Unused(orig, path)
    ensures var w := Bound(orig, path, target, mode, true);
            Sound(w) && RowsAside(orig, w, path) && TreeAside(orig, w, path)
  {
    var saved := SavedName(path);
    assert Under(saved, saved) && Under(path, path);
    FirstBindTree(orig.host, path, target);
    StashedHasNone(orig.paths, path);
    NextIsSound(orig, path, Rebind(target, mode, true));
    var stashed := Renamed(orig.paths, path, saved);
    DeletedIgnores(stashed, path, NextRow(orig.stats.Keys), path);
  }

  lemma {:induction false} MakeKeepsRows(orig: World, w: World, path: string, p: string, stat: Stat)
    requires RowsAside(orig, w, path) && Under(p, path)
    ensures RowsAside(orig, MakeRow(w, p, stat), path)
  {
    DeletedIgnores(w.paths, p, NextRow(w.stats.Keys), path);
  }

  lemma {:induction false} EnsureKeepsRows(orig: World, w: World, path: string, mode: nat)
    requires RowsAside(orig, w, path) && (path in w.paths ==> w.paths[path] in w.stats)
    ensures RowsAside(orig, EnsuredRow(w, path, mode), path)
  {
    assert Under(path, path);
    if path !in w.paths { MakeKeepsRows(orig, w, path, path, Stat(mode, 0, 0, 0)); }
  }

  lemma {:induction false} RebindKeepsRows(orig: World, w: World, path: string, target: string, mode: nat, changed: bool)
    requires Sound(w) && (changed ==> path in orig.paths) && RowsAside(orig, w, path)
    ensures RowsAside(orig, Bound(w, path, target, mode, changed), path)
  {
    if changed {
      SavedRowExists(orig, w, path);
      StashKeepsSound(w, path);
      var stashed := World(StashTree(w.host, path)[path := Link(target)], StashRows(w.paths, path), w.stats);
      assert Under(path, path);
      DeletedIgnores(w.paths, path, 0, path);
      EnsureKeepsRows(orig, stashed, path, mode);
    } else {
      EnsureKeepsRows(orig, w, path, mode);
    }
  }

  lemma {:induction false} StepKeepsAside(orig: World, w: World, path: string, step: Step)
    requires Sound(orig) && Sound(w) && (path in orig.paths || !Moves([step])) && Within(path, [step])
    requires RowsAside(orig, w, path) && TreeAside(orig, w, path)
    ensures var after := Next(w, path, step);
            Sound(after) && RowsAside(orig, after, path) && TreeAside(orig, after, path)
  {
    NextIsSound(w, path, step);
    assert [step][0] == step;
    match step
    case Rebind(target, mode, changed) =>
      RebindKeepsRows(orig, w, path, target, mode, changed);
      assert (w.host - {path})[path := Link(target)] - {path} == w.host - {path};
    case Make(p, stat) => MakeKeepsRows(orig, w, path, p, stat);
    case Forget(p) => DeletedIgnores(w.paths, p, 0, path);
  }

  lemma {:induction false} RunKeepsAside(orig: World, w: World, path: string, steps: seq<Step>)
    requires Sound(orig) && Sound(w) && (path in orig.paths || !Moves(steps)) && Within(path, steps)
    requires RowsAside(orig, w, path) && TreeAside(orig, w, path)
    ensures var end := Run(w, path, steps); Sound(end) && RowsAside(orig, end, path) && TreeAside(orig, end, path)
    decreases |steps|
  {
    if steps != [] {
      assert Within(path, [steps[0]]) && Within(path, steps[1..]) && Moves([steps[0]]) == Moving(steps[0]);
      StepKeepsAside(orig, w, path, steps[0]);
      RunKeepsAside(orig, Next(w, path, steps[0]), path, steps[1..]);
    }
  }

  lemma {:induction false} RestoredTree(orig: map<string, Tree>, host: map<string, Tree>, path: string)
    requires SavedName(path) !in orig && (path in orig ==> orig[path].Real?) && path in host && host[path].Link?
    requires host - {path} == if path in orig then (orig - {path})[SavedName(path) := orig[path]] else orig
    ensures RestoreTree(host, path) == orig
  {
    var saved := SavedName(path);
    assert |path| != |saved|;
    var unlinked := host - {path};
    if path in orig {
      assert unlinked - {saved} == orig - {path};
    } else {
      assert saved !in unlinked;
    }
  }

  lemma {:induction false} UnboundRestores(orig: World, w: World, path: string)
    requires Unused(orig, path) && RowsAside(orig, w, path) && TreeAside(orig, w, path)
    ensures Unbound(w, path).paths == orig.paths && Unbound(w, path).host == orig.host
  {
    SavedApart(path);
    RenameRoundTrip(orig.paths, path, SavedName(path));
    RestoredTree(orig.host, w.host, path);
  }

  /** Main result: a bind, any number of rebinds with rows made and dropped below the mount point in
      between, and an unbind leave every row, every inode's stat, and the host tree as they were. */
  lemma {:induction false} BindUnbindIsAnUndo(orig: World, path: string, target: string, mode: nat, steps: seq<Step>)
    requires Sound(orig) && Unused(orig, path) && path in orig.paths && Within(path, steps)
    ensures Sound(Bound(orig, path, target, mode, true))
    ensures var end := Unbound(Run(Bound(orig, path, target, mode, true), path, steps), path);
            && end.paths == orig.paths && end.host == orig.host
            && forall n :: n in orig.stats ==> n in end.stats && end.stats[n] == orig.stats[n]
  {
    FirstBind(orig, path, target, mode);
    RunKeepsAside(orig, Bound(orig, path, target, mode, true), path, steps);
    UnboundRestores(orig, Run(Bound(orig, path, target, mode, true), path, steps), path);
  }

  /** The row at the mount point is needed exactly when the bind is moved to another host path: that takes
      the bind's own row for the guest's, and the unbind leaves the mount point with a row it never had. */
  lemma {:induction false} UndoneExactly(orig: World, path: string, target: string, mode: nat, steps: seq<Step>)
    requires Sound(orig) && Unused(orig, path) && Within(path, steps) && KeepsPoint(path, steps)
    ensures Sound(Bound(orig, path, target, mode, true))
    ensures var end := Unbound(Run(Bound(orig, path, target, mode, true), path, steps), path);
            end.paths == orig.paths && end.host == orig.host <==> path in orig.paths || !Moves(steps)
  {
    FirstBind(orig, path, target, mode);
    var one := Bound(orig, path, target, mode, true);
    if path in orig.paths || !Moves(steps) {
      RunKeepsAside(orig, one, path, steps);
      UnboundRestores(orig, Run(one, path, steps), path);
    } else {
      RunSaves(one, path, steps);
      RestoredRow(Run(one, path, steps).paths, path);
    }
  }

  lemma WholeNames(path: string)
    ensures var saved := SavedName(path);
            && Apart(path, saved) && Under(saved, saved) && Under(path, path)
            && ChangePrefix(saved, |saved|, path) == path && ChangePrefix(path, |path|, saved) == saved
  {
    var saved := SavedName(path);
    SavedApart(path);
    assert saved[|saved|..] == "" && path[|path|..] == "" && path + "" == path && saved + "" == saved;
  }

  lemma {:induction false} RestoredRow(paths: map<string, Inode>, path: string)
    requires SavedName(path) in paths
    ensures path in RestoreRows(paths, path)
  {
    WholeNames(path);
    RenamedAt(DeleteTree(paths, path), SavedName(path), path, path);
  }

  lemma RowMovesAside(paths: map<string, Inode>, path: string)
    requires path in paths && SavedName(path) !in paths
    ensures SavedName(path) in StashRows(paths, path)
  {
    var saved := SavedName(path);
    WholeNames(path);
    RenamedAt(paths, path, saved, saved);
  }

  lemma {:induction false} StepKeepsSaved(w: World, path: string, step: Step)
    requires Sound(w) && SavedName(path) in w.paths && Within(path, [step])
    ensures SavedName(path) in Next(w, path, step).paths
  {
    SavedApart(path);
    assert [step][0] == step;
  }

  lemma {:induction false} StepKeepsPoint(w: World, path: string, step: Step)
    requires Sound(w) && path in w.paths && step != Forget(path)
    ensures path in Next(w, path, step).paths
    ensures Moving(step) ==> SavedName(path) in Next(w, path, step).paths
  {
    if Moving(step) && SavedName(path) !in w.paths { RowMovesAside(w.paths, path); }
    if Moving(step) { SavedApart(path); }
  }

  lemma {:induction false} RunKeepsSaved(w: World, path: string, steps: seq<Step>)
    requires Sound(w) && SavedName(path) in w.paths && Within(path, steps)
    ensures SavedName(path) in Run(w, path, steps).paths
    decreases |steps|
  {
    if steps != [] {
      NextIsSound(w, path, steps[0]);
      assert Within(path, [steps[0]]) && Within(path, steps[1..]);
      StepKeepsSaved(w, path, steps[0]);
      RunKeepsSaved(Next(w, path, steps[0]), path, steps[1..]);
    }
  }

  /** Once the bind has moved, a row is under the saved name. */
  lemma {:induction false} RunSaves(w: World, path: string, steps: seq<Step>)
    requires Sound(w) && path in w.paths && Within(path, steps) && KeepsPoint(path, steps) && Moves(steps)
    ensures SavedName(path) in Run(w, path, steps).paths
    decreases |steps|
  {
    NextIsSound(w, path, steps[0]);
    StepKeepsPoint(w, path, steps[0]);
    assert Within(path, steps[1..]) && KeepsPoint(path, steps[1..]);
    if Moving(steps[0]) {
      RunKeepsSaved(Next(w, path, steps[0]), path, steps[1..]);
    } else {
      RunSaves(Next(w, path, steps[0]), path, steps[1..]);
    }
  }
}
