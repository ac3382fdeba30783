/**
 Routing between guest and host paths through the bind-mount table (fs/fake.c): the longest matching
 mount decides in both directions.
 */
module BindRoutes {
  import opened FakeDb
  import PathSpec
  import Paths

  const MAX_BIND_MOUNTS: nat := 32

  datatype Option<+T> = None | Some(value: T)

  datatype Mount = Mount(path: string, host: string, readOnly: bool)

  /** The slots of g_bind_mounts; None is inactive. */
  type Table = seq<Option<Mount>>

  /** i is an eligible slot whose path is the longest above `p`, and the first of that length. */
  ghost predicate Longest(table: Table, p: string, readonlyOnly: bool, i: nat) {
    && i < |table| && Routes(table[i], p, readonlyOnly)
    && forall j :: 0 <= j < |table| && Routes(table[j], p, readonlyOnly) ==>
         |table[j].value.path| < |table[i].value.path| || (|table[j].value.path| == |table[i].value.path| && i <= j)
  }

  predicate Routes(slot: Option<Mount>, p: string, readonlyOnly: bool) {
    slot.Some? && (readonlyOnly ==> slot.value.readOnly) && Under(p, slot.value.path)
  }

  /** bind_mount_find */
  method Find(table: Table, p: string, readonlyOnly: bool) returns (r: Option<nat>)
    ensures r.Some? ==> Longest(table, p, readonlyOnly, r.value)
    ensures r.None? ==> forall j :: 0 <= j < |table| ==> !Routes(table[j], p, readonlyOnly)
  {
    r := None;
    var bestLen := -1;
    var i := 0;
    while i < |table|
      invariant i <= |table| && (r.None? ==> bestLen == -1 && forall j :: 0 <= j < i ==> !Routes(table[j], p, readonlyOnly))
      invariant r.Some? ==> r.value < i && Longest(table[..i], p, readonlyOnly, r.value) && bestLen == |table[r.value].value.path|
    {
      assert table[..i + 1] == table[..i] + [table[i]];
      if table[i].Some? && (!readonlyOnly || table[i].value.readOnly) {
        var len := |table[i].value.path|;
        if len <= |p| && p[..len] == table[i].value.path && (len == |p| || p[len] == '/') && len > bestLen {
          bestLen, r := len, Some(i);
        }
      }
      i := i + 1;
    }
    assert table[..i] == table;
  }

  /** fakefs_host_path_contains_rootfs */
  predicate ContainsRootfs(host: string, rootfs: string) {
    rootfs != "" && Under(rootfs, host)
  }

  /** The host path is neither the rootfs directory nor above it; without a registered one, none is. */
  ghost predicate Outside(host: string, rootfs: string) {
    rootfs == "" || !GoesOn(rootfs, host)
  }

  lemma {:induction false} ContainsExactly(host: string, rootfs: string)
    ensures ContainsRootfs(host, rootfs) <==> !Outside(host, rootfs)
  {
    UnderMeaning(rootfs, host);
  }

  const PRIVATE: string := "/private"

  predicate StartsWith(s: string, t: string) { |t| <= |s| && s[..|t|] == t }

  /** How much of a resolved host path the mount accounts for: as it is, or with the /private that host
      name resolution puts before /var taken off. */
  function Accounted(slot: Option<Mount>, resolved: string, rootfs: string): Option<string> {
    if slot.None? || ContainsRootfs(slot.value.host, rootfs) then None
    else if Under(resolved, slot.value.host) then Some(resolved[|slot.value.host|..])
    else if StartsWith(slot.value.host, "/var/") && StartsWith(resolved, "/private/var/")
            && Under(resolved[|PRIVATE|..], slot.value.host) then Some(resolved[|PRIVATE|..][|slot.value.host|..])
    else None
  }

  /** The resolved host path is the mount's with `rest` behind it, or would be without the /private that
      name resolution puts before /var; and the mount is outside the rootfs. */
  ghost predicate Explains(slot: Option<Mount>, resolved: string, rootfs: string, rest: string) {
    && slot.Some? && Outside(slot.value.host, rootfs) && (rest == "" || rest[0] == '/')
    && (resolved == slot.value.host + rest
        || ("/var/" <= slot.value.host && resolved == "/private" + slot.value.host + rest))
  }

  lemma {:induction false} PrivateExplains(resolved: string, host: string, rest: string)
    requires "/var/" <= host && resolved == "/private" + host + rest && (rest == "" || rest[0] == '/')
    ensures StartsWith(host, "/var/") && StartsWith(resolved, "/private/var/") && !Under(resolved, host)
    ensures resolved[|PRIVATE|..] == host + rest && Under(resolved[|PRIVATE|..], host)
    ensures resolved[|PRIVATE|..][|host|..] == rest
  {
    assert resolved == PRIVATE + (host + rest);
    assert host[1] == 'v' && resolved[1] == 'p';
    assert resolved[|PRIVATE|..] == host + rest;
    assert (host + rest)[..5] == host[..5];
    assert resolved[..13] == PRIVATE + resolved[|PRIVATE|..][..5];
    ExtendUnder(host, rest);
    assert |resolved| > 1 && resolved[..|host|][1] == resolved[1];
  }

  lemma {:induction false} AccountedByPrivate(resolved: string, host: string)
    requires StartsWith(host, "/var/") && StartsWith(resolved, "/private/var/") && Under(resolved[|PRIVATE|..], host)
    ensures "/var/" <= host && resolved == "/private" + host + resolved[|PRIVATE|..][|host|..]
  {
    var bare := resolved[|PRIVATE|..];
    assert resolved[..|PRIVATE|] == resolved[..13][..|PRIVATE|] == "/private";
    assert bare == host + bare[|host|..];
    assert resolved == "/private" + bare == "/private" + (host + bare[|host|..]);
    assert host == host[..5] + host[5..];
  }

  /** What a mount accounts for, said of the strings. */
  lemma {:induction false} AccountedMeaning(slot: Option<Mount>, resolved: string, rootfs: string, rest: string)
    ensures Accounted(slot, resolved, rootfs) == Some(rest) <==> Explains(slot, resolved, rootfs, rest)
  {
    if slot.Some? {
      var host := slot.value.host;
      ContainsExactly(host, rootfs);
      if Accounted(slot, resolved, rootfs) == Some(rest) {
        if Under(resolved, host) {
          assert resolved == host + rest;
        } else {
          AccountedByPrivate(resolved, host);
        }
      }
      if Explains(slot, resolved, rootfs, rest) {
        if resolved == host + rest { ExtendUnder(host, rest); } else { PrivateExplains(resolved, host, rest); }
      }
    }
  }

  /** The mount that explains the resolved path with the longest host path, and the first of that length. */
  ghost predicate Chosen(table: Table, resolved: string, rootfs: string, i: nat, rest: string) {
    && i < |table| && Explains(table[i], resolved, rootfs, rest)
    && forall j, other :: 0 <= j < |table| && Explains(table[j], resolved, rootfs, other) ==>
         |table[j].value.host| < |table[i].value.host| || (|table[j].value.host| == |table[i].value.host| && i <= j)
  }

  lemma {:induction false} ChosenIsLongest(table: Table, resolved: string, rootfs: string, i: nat, rest: string)
    ensures Chosen(table, resolved, rootfs, i, rest)
            <==> LongestHost(table, resolved, rootfs, i) && Accounted(table[i], resolved, rootfs) == Some(rest)
  {
    if i < |table| { AccountedMeaning(table[i], resolved, rootfs, rest); }
    if Chosen(table, resolved, rootfs, i, rest) {
      forall j | 0 <= j < |table| && Accounted(table[j], resolved, rootfs).Some?
        ensures Longer(table, i, j)
      {
        AccountedMeaning(table[j], resolved, rootfs, Accounted(table[j], resolved, rootfs).value);
      }
    } else if LongestHost(table, resolved, rootfs, i) && Accounted(table[i], resolved, rootfs) == Some(rest) {
      forall j, other | 0 <= j < |table| && Explains(table[j], resolved, rootfs, other) ensures Longer(table, i, j) {
        AccountedMeaning(table[j], resolved, rootfs, other);
      }
    }
  }

  predicate Longer(table: Table, i: nat, j: nat)
    requires i < |table| && j < |table| && table[i].Some? && table[j].Some?
  {
    |table[j].value.host| < |table[i].value.host| || (|table[j].value.host| == |table[i].value.host| && i <= j)
  }

  /** The longest host path that accounts for `resolved`, and the first of that length. */
  ghost predicate LongestHost(table: Table, resolved: string, rootfs: string, i: nat) {
    && i < |table| && Accounted(table[i], resolved, rootfs).Some?
    && forall j :: 0 <= j < |table| && Accounted(table[j], resolved, rootfs).Some? ==>
         |table[j].value.host| < |table[i].value.host| || (|table[j].value.host| == |table[i].value.host| && i <= j)
  }

  /** The host path of a guest path under the mount. */
  function HostPath(m: Mount, canon: string): string
    requires Under(canon, m.path)
  {
    m.host + canon[|m.path|..]
  }

  /** bind_mount_translate_path_ex without a hook: the canonical path under its longest mount, if it fits. */
  method Translate(table: Table, path: string, outSize: nat) returns (r: Option<string>)
    ensures r.Some? ==> |r.value| < outSize && exists i: nat, canon :: RouteOf(table, path, i, canon) && r.value == HostPath(table[i].value, canon)
    ensures r.None? ==> forall i: nat, canon :: RouteOf(table, path, i, canon) ==> |HostPath(table[i].value, canon)| >= outSize
  {
    var buffer := new char[PathSpec.MAX_PATH](_ => ' ');
    var ok, len := Paths.BindNormalize(path, buffer, PathSpec.MAX_PATH);
    if !ok { return None; }
    var canon := buffer[..len];
    var found := Find(table, canon, false);
    if found.None? {
      assert forall i: nat, c :: RouteOf(table, path, i, c) ==> c == canon;
      return None;
    }
    var m := table[found.value].value;
    assert RouteOf(table, path, found.value, canon);
    var out := m.host + canon[|m.path|..];
    assert out == HostPath(m, canon);
    if |out| >= outSize {
      forall i: nat, c | RouteOf(table, path, i, c) ensures |HostPath(table[i].value, c)| >= outSize {
        OneRoute(table, path, i, c, found.value, canon);
      }
      return None;
    }
    return Some(out);
  }

  /** The mount and the canonical form of a guest path. */
  ghost predicate RouteOf(table: Table, path: string, i: nat, canon: string) {
    Paths.Canonical(path, PathSpec.MAX_PATH - 1) == PathSpec.Some(canon) && Longest(table, canon, false, i)
  }

  lemma OneRoute(table: Table, path: string, i: nat, a: string, j: nat, b: string)
    requires RouteOf(table, path, i, a) && RouteOf(table, path, j, b)
    ensures i == j && a == b
  {}

  /** The guest path of a host path the mount accounts for. */
  function GuestPath(slot: Option<Mount>, resolved: string, rootfs: string): string
    requires Accounted(slot, resolved, rootfs).Some?
  {
    slot.value.path + Accounted(slot, resolved, rootfs).value
  }

  /** fakefs_bind_mount_resolve_path without a hook. */
  method Resolve(table: Table, resolved: string, rootfs: string, outSize: nat) returns (r: Option<string>)
    ensures r.Some? ==> |r.value| < outSize
    ensures r.Some? ==> exists i: nat, rest :: Chosen(table, resolved, rootfs, i, rest) && r.value == table[i].value.path + rest
    ensures r.None? ==> forall i: nat, rest :: Chosen(table, resolved, rootfs, i, rest) ==> |table[i].value.path + rest| >= outSize
  {
    var best: Option<nat> := None;
    var bestLen := -1;
    var rest := "";
    var i := 0;
    while i < |table|
      invariant i <= |table| && (best.None? ==> bestLen == -1 && forall j :: 0 <= j < i ==> Accounted(table[j], resolved, rootfs).None?)
      invariant best.Some? ==> best.value < i && LongestHost(table[..i], resolved, rootfs, best.value)
      invariant best.Some? ==> bestLen == |table[best.value].value.host| && Some(rest) == Accounted(table[best.value], resolved, rootfs)
    {
      assert table[..i + 1] == table[..i] + [table[i]];
      if table[i].Some? {
        var host := table[i].value.host;
        if !ContainsRootfs(host, rootfs) {
          if Under(resolved, host) {
            if |host| > bestLen { bestLen, best, rest := |host|, Some(i), resolved[|host|..]; }
          } else if StartsWith(host, "/var/") && StartsWith(resolved, "/private/var/") {
            var bare := resolved[8..];
            if Under(bare, host) && |host| > bestLen { bestLen, best, rest := |host|, Some(i), bare[|host|..]; }
          }
        }
      }
      i := i + 1;
    }
    assert table[..i] == table;
    forall j: nat, other | j < |table|
      ensures Chosen(table, resolved, rootfs, j, other)
              <==> LongestHost(table, resolved, rootfs, j) && Accounted(table[j], resolved, rootfs) == Some(other)
    {
      ChosenIsLongest(table, resolved, rootfs, j, other);
    }
    if best.None? { return None; }
    assert Chosen(table, resolved, rootfs, best.value, rest);
    var out := table[best.value].value.path + rest;
    if |out| >= outSize {
      assert forall j: nat :: LongestHost(table, resolved, rootfs, j) ==> j == best.value;
      return None;
    }
    return Some(out);
  }

  // ---------------------------------------------------------------------------------------------
  // There and back
  // ---------------------------------------------------------------------------------------------

  /** One host path is above or equal to the other, or would be with /private put before /var. */
  predicate Clash(a: string, b: string) {
    || Under(a, b) || Under(b, a)
    || (StartsWith(b, "/var/") && (Under(a, PRIVATE + b) || Under(PRIVATE + b, a)))
  }

  /** No two active mounts have clashing host paths. */
  ghost predicate HostsApart(table: Table) {
    forall i, j :: 0 <= i < |table| && 0 <= j < |table| && i != j && table[i].Some? && table[j].Some?
      ==> !Clash(table[i].value.host, table[j].value.host)
  }

  lemma ExtendUnder(host: string, rest: string)
    requires rest == "" || rest[0] == '/'
    ensures Under(host + rest, host) && (host + rest)[|host|..] == rest
  {
    assert (host + rest)[..|host|] == host;
  }

  /** A mount that accounts for a path below a host directory has a host path that clashes with it. */
  lemma AccountedClash(host: string, slot: Option<Mount>, rest: string, rootfs: string)
    requires (rest == "" || rest[0] == '/') && Accounted(slot, host + rest, rootfs).Some?
    ensures Clash(host, slot.value.host)
  {
    var resolved, b := host + rest, slot.value.host;
    ExtendUnder(host, rest);
    if Under(resolved, b) {
      Comparable(resolved, host, b);
    } else {
      assert resolved[..13] == "/private/var/";
      assert resolved[..|PRIVATE|] == resolved[..13][..8];
      UnderPrivate(resolved, b);
      Comparable(resolved, host, PRIVATE + b);
    }
  }

  /** Only the mount a host path was made from accounts for it. */
  lemma OnlyItsMount(table: Table, i: nat, j: nat, rest: string, rootfs: string)
    requires HostsApart(table) && i < |table| && j < |table| && table[i].Some? && (rest == "" || rest[0] == '/')
    requires Accounted(table[j], table[i].value.host + rest, rootfs).Some?
    ensures i == j
  {
    AccountedClash(table[i].value.host, table[j], rest, rootfs);
  }

  lemma UnderPrivate(resolved: string, b: string)
    requires |resolved| >= |PRIVATE| && resolved[..|PRIVATE|] == PRIVATE && Under(resolved[|PRIVATE|..], b)
    ensures Under(resolved, PRIVATE + b)
  {
    var bare := resolved[|PRIVATE|..];
    assert resolved == PRIVATE + bare;
    assert resolved[..|PRIVATE| + |b|] == PRIVATE + bare[..|b|];
    if |resolved| > |PRIVATE + b| { assert resolved[|PRIVATE| + |b|] == bare[|b|]; }
  }

  /** Main result: the guest path the reverse direction gives for a translated path is its canonical form. */
  lemma {:induction false} TranslateThenResolve(table: Table, path: string, i: nat, canon: string, rootfs: string, j: nat)
    requires RouteOf(table, path, i, canon) && HostsApart(table) && Outside(table[i].value.host, rootfs)
    requires var resolved := HostPath(table[i].value, canon); LongestHost(table, resolved, rootfs, j)
    ensures var resolved := HostPath(table[i].value, canon);
            GuestPath(table[j], resolved, rootfs) == canon
  {
    var m := table[i].value;
    var rest := canon[|m.path|..];
    assert rest == "" || rest[0] == '/';
    ExtendUnder(m.host, rest);
    OnlyItsMount(table, i, j, rest, rootfs);
    assert canon == m.path + rest;
  }

  /** And the reverse direction does find a mount. */
  lemma {:induction false} TranslatedIsResolvable(table: Table, path: string, i: nat, canon: string, rootfs: string)
    requires RouteOf(table, path, i, canon) && HostsApart(table) && Outside(table[i].value.host, rootfs)
    ensures LongestHost(table, HostPath(table[i].value, canon), rootfs, i)
  {
    var m := table[i].value;
    var rest := canon[|m.path|..];
    assert rest == "" || rest[0] == '/';
    ExtendUnder(m.host, rest);
    ContainsExactly(m.host, rootfs);
    forall j | 0 <= j < |table| && Accounted(table[j], m.host + rest, rootfs).Some? ensures j == i {
      OnlyItsMount(table, i, j, rest, rootfs);
    }
  }

  /** Active mounts have different guest paths, as fakefs_bind_mount keeps them. */
  ghost predicate PathsDiffer(table: Table) {
    forall i, j :: 0 <= i < j < |table| && table[i].Some? && table[j].Some? ==> table[i].value.path != table[j].value.path
  }

  /** A mount whose guest path comes out of the reverse direction right was above the guest path. */
  lemma {:induction false} RightMeansAbove(slot: Option<Mount>, resolved: string, canon: string, rootfs: string)
    requires Accounted(slot, resolved, rootfs).Some? && GuestPath(slot, resolved, rootfs) == canon
    ensures Routes(slot, canon, false) && canon[..|slot.value.path|] == slot.value.path
    ensures |canon| - |slot.value.path| <= |resolved| - |slot.value.host|
  {
    var rest := Accounted(slot, resolved, rootfs).value;
    AccountedRest(slot, resolved, rootfs);
    ExtendUnder(slot.value.path, rest);
  }

  lemma AccountedRest(slot: Option<Mount>, resolved: string, rootfs: string)
    requires Accounted(slot, resolved, rootfs).Some?
    ensures var rest := Accounted(slot, resolved, rootfs).value;
            (rest == "" || rest[0] == '/') && |rest| <= |resolved| - |slot.value.host|
  {}

  /** Only the mount above the guest path can bring it back. */
  lemma {:induction false} RightMeansOwn(table: Table, i: nat, j: nat, resolved: string, canon: string, rootfs: string)
    requires Longest(table, canon, false, i) && PathsDiffer(table)
    requires Accounted(table[i], resolved, rootfs).Some? && |resolved| - |table[i].value.host| == |canon| - |table[i].value.path|
    requires LongestHost(table, resolved, rootfs, j) && GuestPath(table[j], resolved, rootfs) == canon
    ensures i == j
  {
    RightMeansAbove(table[j], resolved, canon, rootfs);
    SameLengthSamePath(table, i, j, canon);
  }

  lemma {:induction false} OwnPath(m: Mount, canon: string, rootfs: string)
    requires Under(canon, m.path) && !ContainsRootfs(m.host, rootfs)
    ensures var resolved := HostPath(m, canon);
            && Accounted(Some(m), resolved, rootfs).Some? && GuestPath(Some(m), resolved, rootfs) == canon
            && |resolved| - |m.host| == |canon| - |m.path|
  {
    var rest := canon[|m.path|..];
    assert rest == "" || rest[0] == '/';
    ExtendUnder(m.host, rest);
    assert canon == m.path + rest;
  }

  lemma OneLongestHost(table: Table, resolved: string, rootfs: string, i: nat, j: nat)
    requires LongestHost(table, resolved, rootfs, i) && LongestHost(table, resolved, rootfs, j)
    ensures i == j
  {}

  /** Exactly when the round trip works, for any table and any path: when the mount that made the host path
      is the longest that accounts for it. */
  lemma {:induction false} RoundTripExactly(table: Table, path: string, i: nat, canon: string, rootfs: string, j: nat)
    requires RouteOf(table, path, i, canon) && PathsDiffer(table) && Outside(table[i].value.host, rootfs)
    requires LongestHost(table, HostPath(table[i].value, canon), rootfs, j)
    ensures GuestPath(table[j], HostPath(table[i].value, canon), rootfs) == canon
            <==> LongestHost(table, HostPath(table[i].value, canon), rootfs, i)
  {
    var resolved := HostPath(table[i].value, canon);
    ContainsExactly(table[i].value.host, rootfs);
    OwnPath(table[i].value, canon, rootfs);
    if GuestPath(table[j], resolved, rootfs) == canon { RightMeansOwn(table, i, j, resolved, canon, rootfs); }
    if LongestHost(table, resolved, rootfs, i) { OneLongestHost(table, resolved, rootfs, i, j); }
  }

  lemma SameLengthSamePath(table: Table, i: nat, j: nat, canon: string)
    requires PathsDiffer(table) && i < |table| && j < |table| && Routes(table[i], canon, false) && Routes(table[j], canon, false)
    ensures |table[i].value.path| == |table[j].value.path| ==> i == j
  {
    if |table[i].value.path| == |table[j].value.path| { assert table[i].value.path == table[j].value.path; }
  }

  /** So with one mount's host path below another's, what the outer mount makes of a guest path that ends
      up in the inner one never leads back. */
  lemma {:induction false} NestedHostsMisroute(table: Table, path: string, i: nat, canon: string, rootfs: string, j: nat, k: nat)
    requires RouteOf(table, path, i, canon) && PathsDiffer(table) && Outside(table[i].value.host, rootfs)
    requires k < |table| && Accounted(table[k], HostPath(table[i].value, canon), rootfs).Some?
    requires |table[k].value.host| > |table[i].value.host|
    requires LongestHost(table, HostPath(table[i].value, canon), rootfs, j)
    ensures GuestPath(table[j], HostPath(table[i].value, canon), rootfs) != canon
  {
    RoundTripExactly(table, path, i, canon, rootfs, j);
  }
}
