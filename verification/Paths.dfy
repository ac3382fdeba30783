/**
 The path functions that work character by character in a fixed buffer: __path_normalize and
 path_is_normalized (fs/path.c), and bind_mount_normalize (fs/fake.c).
 */
module Paths {
  import opened PathSpec

  /** A length, with the terminator after it in the buffer, or the error. */
  datatype Outcome = Length(n: nat) | Fail(error: Result)

  lemma DotNames(s: string)
    requires s != "" && s[0] != '/'
    ensures s[..NameLen(s)] == "." <==> s[0] == '.' && (|s| == 1 || s[1] == '/')
    ensures s[..NameLen(s)] == ".." <==> s[0] == '.' && |s| > 1 && s[1] == '.' && (|s| == 2 || s[2] == '/')
  {
    var n := NameLen(s);
    if s[..n] == "." { assert n == 1; }
    if s[..n] == ".." { assert n == 2 && s[..n][1] == '.'; }
    if s[0] == '.' && (|s| == 1 || s[1] == '/') { assert n == 1 && s[..1] == "."; }
    if s[0] == '.' && |s| > 1 && s[1] == '.' && (|s| == 2 || s[2] == '/') { assert n == 2 && s[..2] == ".."; }
  }

  lemma SkipNone(s: string)
    requires s == "" || s[0] != '/'
    ensures Skip(s) == s
  {}

  /** Past a run of slashes. */
  method SkipSlashes(path: string, p0: nat) returns (p: nat)
    requires p0 <= |path|
    ensures p0 <= p <= |path| && path[p..] == Skip(path[p0..]) && (p < |path| ==> path[p] != '/')
  {
    p := p0;
    while p < |path| && path[p] == '/'
      invariant p0 <= p <= |path| && Skip(path[p..]) == Skip(path[p0..])
    {
      assert path[p..][1..] == path[p + 1..];
      p := p + 1;
    }
    SkipNone(path[p..]);
  }

  /** The walk from position p with `out` so far. */
  ghost predicate At(env: Env, goal: Result, out: string, path: string, p: nat, levels: nat) {
    && levels <= 6 && p <= |path| && (p < |path| ==> path[p] != '/') && (out == "" || out[0] == '/')
    && Walk(env, out, path[p..], levels) == goal
  }

  lemma DotStep(env: Env, goal: Result, out: string, path: string, p: nat, next: nat, levels: nat)
    requires At(env, goal, out, path, p, levels) && p < |path| && path[p] == '.' && (p + 1 == |path| || path[p + 1] == '/')
    requires next <= |path| && path[next..] == Skip(path[p + 1..])
    ensures At(env, goal, out, path, next, levels)
  {
    var s := path[p..];
    DotNames(s);
    SkipNone(s);
    assert s[1..] == path[p + 1..];
  }

  lemma DotDotStep(env: Env, goal: Result, out: string, path: string, p: nat, next: nat, levels: nat)
    requires At(env, goal, out, path, p, levels) && p + 1 < |path| && path[p] == '.' && path[p + 1] == '.'
    requires p + 2 == |path| || path[p + 2] == '/'
    requires next <= |path| && path[next..] == Skip(path[p + 2..])
    ensures At(env, goal, Pop(out, Floor(env)), path, next, levels)
  {
    var s := path[p..];
    DotNames(s);
    SkipNone(s);
    assert s[2..] == path[p + 2..];
  }

  /** What the walk does with an ordinary name: `tail` is what follows it, `rest` without its slashes. */
  lemma NameStep(env: Env, goal: Result, out: string, path: string, p: nat, levels: nat)
    requires At(env, goal, out, path, p, levels) && p < |path|
    requires !(path[p] == '.' && (p + 1 == |path| || path[p + 1] == '/'))
    requires !(path[p] == '.' && p + 1 < |path| && path[p + 1] == '.' && (p + 2 == |path| || path[p + 2] == '/'))
    ensures var s := path[p..]; var name, tail := s[..NameLen(s)], s[NameLen(s)..];
            IsName(name) && goal == AfterName(env, out, name, tail, Skip(tail), levels)
  {
    var s := path[p..];
    DotNames(s);
    SkipNone(s);
    FirstIsName(s);
  }

  /** `..` in the buffer: back over the last component. */
  method PopBuffer(out: array<char>, o0: nat) returns (o: nat)
    requires 0 < o0 <= out.Length && out[0] == '/'
    ensures o < o0 && out[..o] == out[..o0][..LastSlash(out[..o0])]
  {
    o := o0 - 1;
    while out[o] != '/'
      decreases o
      invariant o < o0 && forall j :: o < j < o0 ==> out[j] != '/'
    {
      o := o - 1;
    }
    LastSlashAt(out[..o0], o);
  }

  method PopComponent(out: array<char>, o0: nat, n0: nat, floor: nat) returns (o: nat, n: nat)
    requires o0 <= out.Length && (o0 > 0 ==> out[0] == '/')
    ensures o <= o0 && o + n == o0 + n0 && out[..o] == Pop(out[..o0], floor)
  {
    o, n := o0, n0;
    if o != 0 && o > floor {
      o := PopBuffer(out, o);
      n := n + (o0 - o);
    }
  }

  lemma {:induction false} LastSlashAt(s: string, i: nat)
    requires i < |s| && s[i] == '/' && forall j :: i < j < |s| ==> s[j] != '/'
    ensures LastSlash(s) == i
  {
    if |s| > 1 && s[|s| - 1] != '/' { LastSlashAt(s[..|s| - 1], i); }
  }

  /** A slash and a name, as far as the budget n goes: n is what the buffer still takes. */
  method PushName(path: string, p0: nat, out: array<char>, o0: nat, n0: nat) returns (p: nat, o: nat, n: nat)
    requires p0 < |path| && path[p0] != '/' && out.Length >= MAX_PATH && o0 + n0 == MAX_PATH - 1 && n0 >= 2
    modifies out
    ensures p0 <= p <= |path| && o <= MAX_PATH - 1
    ensures var name := path[p0..][..NameLen(path[p0..])];
            if o0 + 1 + |name| <= MAX_PATH - 2
            then o + n == MAX_PATH - 1 && n > 0 && out[..o] == old(out[..o0]) + "/" + name && path[p..] == path[p0..][|name|..]
            else n == 0
  {
    ghost var s := path[p0..];
    ghost var len := NameLen(s);
    p, o, n := p0, o0, n0;
    out[o] := '/';
    o, n := o + 1, n - 1;
    var full := false;
    while p < |path| && path[p] != '/' && !full
      invariant p0 <= p <= p0 + len && (full ==> n == 0 && p < p0 + len)
      invariant !full ==> o + n == MAX_PATH - 1 && n > 0
      invariant o == o0 + 1 + (p - p0) && o <= MAX_PATH - 1
      invariant full ==> o == MAX_PATH - 2
      invariant out[..o] == old(out[..o0]) + "/" + s[..p - p0]
      decreases |path| - p, !full
    {
      assert s[p - p0] == path[p];
      n := n - 1;
      if n > 0 {
        out[o] := path[p];
        o, p := o + 1, p + 1;
      } else {
        full := true;
      }
    }
    if p < |path| { assert s[p - p0] == path[p]; }
    assert !full ==> p == p0 + len;
    assert path[p..] == s[p - p0..];
  }

  /** The outcome is the goal: the path in the buffer with its terminator, or the error. */
  ghost predicate Answers(r: Outcome, goal: Result, buffer: seq<char>) {
    match r
    case Length(n) => n < |buffer| && buffer[n] == '\0' && goal == Ok(buffer[..n])
    case Fail(error) => goal == error && !error.Ok?
  }

  /** __path_normalize: never outside the buffer, and the result of the walk. */
  method PathNormalize(env: Env, at: Option<string>, path: string, out: array<char>, levels: nat) returns (r: Outcome)
    requires out.Length >= MAX_PATH && levels <= 6 && Normalized(env.root)
    requires at.Some? ==> Normalized(at.value)
    modifies out
    ensures Answers(r, Start(env, at, path, levels), out[..])
    decreases 6 - levels, 5
  {
    if path == "" { return Fail(ENOENT); }
    var o: nat, n: nat := 0, MAX_PATH - 1;
    if at.Some? && at.value != "/" {
      var len := |at.value|;
      if len + 2 > n { return Fail(ENAMETOOLONG); }
      forall i | 0 <= i < len { out[i] := at.value[i]; }
      assert out[..len] == at.value;
      o, n := len, n - len;
    } else {
      assert out[..0] == "";
    }
    var p := SkipSlashes(path, 0);
    assert path[0..] == path;
    WalkSkips(env, out[..o], path, levels);
    r := WalkComponents(env, path, p, out, o, n, levels);
  }

  /** The component loop of __path_normalize; n is what the buffer still takes. */
  method WalkComponents(env: Env, path: string, p0: nat, out: array<char>, o0: nat, n0: nat, levels: nat) returns (r: Outcome)
    requires out.Length >= MAX_PATH && levels <= 6 && Normalized(env.root) && p0 <= |path| && (p0 < |path| ==> path[p0] != '/')
    requires o0 + n0 == MAX_PATH - 1 && n0 > 0 && (o0 > 0 ==> out[0] == '/')
    modifies out
    ensures Answers(r, Walk(env, old(out[..o0]), path[p0..], levels), out[..])
    decreases 6 - levels, 4
  {
    var p, o, n := p0, o0, n0;
    ghost var goal := Walk(env, out[..o0], path[p0..], levels);
    while p < |path|
      invariant o + n == MAX_PATH - 1 && n > 0 && At(env, goal, out[..o], path, p, levels)
      decreases |path| - p
    {
      var done: bool;
      done, r, p, o, n := TakeComponent(env, path, p, out, o, n, levels, goal);
      if done { return; }
    }
    out[o] := '\0';
    WalkEnds(env, goal, out[..o], path, levels);
    assert out[..][..o] == out[..o];
    return Length(o);
  }

  /** One turn of the loop. */
  method TakeComponent(env: Env, path: string, p0: nat, out: array<char>, o0: nat, n0: nat, levels: nat, ghost goal: Result)
    returns (done: bool, r: Outcome, p: nat, o: nat, n: nat)
    requires out.Length >= MAX_PATH && Normalized(env.root) && p0 < |path|
    requires o0 + n0 == MAX_PATH - 1 && n0 > 0 && At(env, goal, out[..o0], path, p0, levels)
    modifies out
    ensures done ==> Answers(r, goal, out[..])
    ensures !done ==> o + n == MAX_PATH - 1 && n > 0 && p > p0 && At(env, goal, out[..o], path, p, levels)
    decreases 6 - levels, 3
  {
    done, r, p, o, n := false, Fail(ENAMETOOLONG), p0, o0, n0;
    if path[p] == '.' && (p + 1 == |path| || path[p + 1] == '/') {
      p := SkipSlashes(path, p + 1);
      DotStep(env, goal, out[..o], path, p0, p, levels);
    } else if path[p] == '.' && p + 1 < |path| && path[p + 1] == '.' && (p + 2 == |path| || path[p + 2] == '/') {
      p := SkipSlashes(path, p + 2);
      DotDotStep(env, goal, out[..o], path, p0, p, levels);
      o, n := PopComponent(out, o, n, Floor(env));
    } else {
      done, r, p, o, n := TakeName(env, path, p, out, o, n, levels, goal);
    }
  }

  /** One turn of the loop on an ordinary name. */
  method TakeName(env: Env, path: string, p0: nat, out: array<char>, o0: nat, n0: nat, levels: nat, ghost goal: Result)
    returns (done: bool, r: Outcome, p: nat, o: nat, n: nat)
    requires out.Length >= MAX_PATH && Normalized(env.root) && p0 < |path|
    requires o0 + n0 == MAX_PATH - 1 && n0 > 0 && At(env, goal, out[..o0], path, p0, levels)
    requires !(path[p0] == '.' && (p0 + 1 == |path| || path[p0 + 1] == '/'))
    requires !(path[p0] == '.' && p0 + 1 < |path| && path[p0 + 1] == '.' && (p0 + 2 == |path| || path[p0 + 2] == '/'))
    modifies out
    ensures done ==> Answers(r, goal, out[..])
    ensures !done ==> o + n == MAX_PATH - 1 && n > 0 && p > p0 && At(env, goal, out[..o], path, p, levels)
    decreases 6 - levels, 2
  {
    NameStep(env, goal, out[..o0], path, p0, levels);
    done, r, p, o, n := true, Fail(ENAMETOOLONG), p0, o0, n0;
    ghost var soFar, s := out[..o0], path[p0..];
    ghost var name, tail := s[..NameLen(s)], s[NameLen(s)..];
    if n < 2 { return; }
    var next: nat;
    next, o, n := PushName(path, p, out, o, n);
    if n == 0 { return; }
    p := SkipSlashes(path, next);
    NameTaken(path, p0, next, p);
    done, r := NameTakenTurn(env, path, p, next < |path|, out, o, levels, goal, soFar, name, tail);
  }

  /** The name is in the buffer: is it a link, and can the walk go on through it? */
  method NameTakenTurn(env: Env, path: string, p: nat, more: bool, out: array<char>, o: nat, levels: nat, ghost goal: Result,
                       ghost soFar: string, ghost name: string, ghost tail: string) returns (done: bool, r: Outcome)
    requires out.Length >= MAX_PATH && Normalized(env.root) && levels <= 6 && p <= |path| && o <= MAX_PATH - 2
    requires IsName(name) && (soFar == "" || soFar[0] == '/') && out[..o] == soFar + "/" + name
    requires path[p..] == Skip(tail) && (p < |path| ==> path[p] != '/') && more == (tail != "")
    requires goal == AfterName(env, soFar, name, tail, Skip(tail), levels)
    modifies out
    ensures if done then Answers(r, goal, out[..]) else At(env, goal, out[..o], path, p, levels)
    decreases 6 - levels, 1
  {
    done, r := true, Fail(ELOOP);
    var longer := out[..o];
    if env.follow || p < |path| {
      var link := env.readlink(longer);
      if link.Some? {
        if levels >= 5 { return; }
        LastSlashOf(soFar, name);
        assert longer[..LastSlash(longer)] == soFar;
        r := FollowLink(env, longer[..LastSlash(longer)], link.value, path[p..], out, levels);
        return;
      }
      if more {
        var err := env.probe(longer);
        if err < 0 {
          r := Fail(Err(err));
          return;
        }
      }
    }
    done := false;
  }

  /** A link starts the whole thing over: from the process's root if its target is absolute, else from the
      directory the link is in. */
  method FollowLink(env: Env, dir: string, target: string, rest: string, out: array<char>, levels: nat) returns (r: Outcome)
    requires out.Length >= MAX_PATH && levels < 5 && Normalized(env.root)
    modifies out
    ensures Answers(r, if target != "" && target[0] == '/' then Start(env, Some(env.root), target + More(rest), levels + 1)
                       else Start(env, None, dir + "/" + target + More(rest), levels + 1), out[..])
    decreases 6 - levels, 0
  {
    var more := if rest == "" then "" else "/" + rest;
    if target != "" && target[0] == '/' {
      r := PathNormalize(env, Some(env.root), target + more, out, levels + 1);
    } else {
      r := PathNormalize(env, None, dir + "/" + target + more, out, levels + 1);
    }
  }

  lemma NameTaken(path: string, p0: nat, next: nat, p: nat)
    requires p0 < |path| && path[p0] != '/' && p0 <= next <= p <= |path| && path[p..] == Skip(path[next..])
    requires path[next..] == path[p0..][NameLen(path[p0..])..]
    ensures var tail := path[p0..][NameLen(path[p0..])..];
            path[p..] == Skip(tail) && (next < |path| <==> tail != "") && p > p0 && (p < |path| <==> Skip(tail) != "")
  {
    assert |path[next..]| == |path| - next;
    FirstIsName(path[p0..]);
  }

  lemma WalkEnds(env: Env, goal: Result, out: string, path: string, levels: nat)
    requires At(env, goal, out, path, |path|, levels)
    ensures goal == Ok(out)
  {
    assert path[|path|..] == "";
  }

  lemma WalkSkips(env: Env, out: string, path: string, levels: nat)
    requires levels <= 6
    ensures Walk(env, out, Skip(path), levels) == Walk(env, out, path, levels)
  {
    SkipNone(Skip(path));
  }

  /** path_is_normalized */
  method IsNormalized(path: string) returns (r: bool)
    ensures r == Normalized(path)
  {
    var p := 0;
    assert path[0..] == path;
    while p < |path|
      invariant p <= |path| && Normalized(path[p..]) == Normalized(path)
    {
      if path[p] != '/' { return false; }
      ghost var s := path[p..];
      p := p + 1;
      if p < |path| && path[p] == '/' { assert s[1] == path[p]; return false; }
      ghost var start, len := p, NameLen(s[1..]);
      assert s[1..] == path[start..];
      while p < |path| && path[p] != '/'
        invariant start <= p <= start + len <= |path|
      {
        assert s[1..][p - start] == path[p];
        p := p + 1;
      }
      assert p < |path| ==> s[1..][p - start] == path[p];
      assert p == start + len;
      assert path[p..] == s[1 + len..];
    }
    return true;
  }

  // ---------------------------------------------------------------------------------------------
  // bind_mount_normalize
  // ---------------------------------------------------------------------------------------------

  /** The canonical absolute form: the root is a slash. */
  function Spell(st: seq<string>): string { if st == [] then "/" else Render(st) }

  /** The walk of bind_mount_normalize stands at p with `st` in the buffer. */
  ghost predicate Canon(st: seq<string>, out: string, path: string, p: nat, limit: nat) {
    && p <= |path| && AllNames(st) && out == Spell(st) && |out| <= limit
    && Lexical(st, Comps(path[p..]), 0) == Lexical([], Comps(path), 0)
    && Outgrows(st, Comps(path[p..]), 0, limit) == Outgrows([], Comps(path), 0, limit)
  }

  lemma CompsFrom(path: string, p: nat, start: nat, end: nat)
    requires p <= start < end <= |path| && path[start] != '/' && path[start..] == Skip(path[p..])
    requires end == start + NameLen(path[start..])
    ensures IsName(path[start..end]) && Comps(path[p..]) == [path[start..end]] + Comps(path[end..])
  {
    FirstIsName(path[start..]);
    CutMiddle(path, start, end);
  }

  lemma CutMiddle(path: string, start: nat, end: nat)
    requires start <= end <= |path|
    ensures path[start..][..end - start] == path[start..end] && path[start..][end - start..] == path[end..]
  {}

  lemma {:induction false} CanonStep(st: seq<string>, out: string, path: string, p: nat, start: nat, end: nat, limit: nat)
    requires Canon(st, out, path, p, limit) && limit >= 1
    requires p <= start < end <= |path| && path[start] != '/' && path[start..] == Skip(path[p..])
    requires end == start + NameLen(path[start..])
    ensures var name := path[start..end]; var next := Apply(st, name, 0);
            if |next| > |st| && |Render(next)| > limit then Outgrows([], Comps(path), 0, limit)
            else Canon(next, Spell(next), path, end, limit)
  {
    CompsFrom(path, p, start, end);
    var name := path[start..end];
    var next := Apply(st, name, 0);
    if |next| < |st| { RenderGrows(st, |st| - 1); }
  }

  lemma {:induction false} CanonAtEnd(st: seq<string>, out: string, path: string, p: nat, limit: nat)
    requires Canon(st, out, path, p, limit) && Skip(path[p..]) == ""
    ensures Canon(st, out, path, |path|, limit)
  {
    assert path[|path|..] == "";
  }

  lemma CanonNone(st: seq<string>, out: string, path: string, p: nat, limit: nat)
    requires Canon(st, out, path, p, limit) && Skip(path[p..]) == ""
    ensures Lexical([], Comps(path), 0) == st && !Outgrows([], Comps(path), 0, limit)
  {}

  /** Back to the parent: to the slash before the last name, and over it unless it is the root's. */
  method PopSpelled(out: array<char>, len0: nat, ghost st: seq<string>) returns (len: nat)
    requires 0 < len0 <= out.Length && AllNames(st) && out[..len0] == Spell(st)
    ensures 0 < len <= len0 && out[..len] == Spell(Apply(st, "..", 0))
  {
    len := len0;
    ghost var s := out[..len0];
    assert st != [] ==> st == st[..|st| - 1] + [st[|st| - 1]];
    if st != [] {
      RenderPush(st[..|st| - 1], st[|st| - 1]);
      LastSlashOf(Render(st[..|st| - 1]), st[|st| - 1]);
      RenderGrows(st, |st| - 1);
    }
    ghost var cut := LastSlash(s);
    while len > 1 && out[len - 1] != '/'
      invariant cut + 1 <= len <= len0
    {
      assert s[len - 1] == out[len - 1];
      len := len - 1;
    }
    if st != [] {
      assert s[len - 1] == out[len - 1];
      assert len == cut + 1;
      assert s[..cut] == Render(st[..|st| - 1]);
    }
    if len > 1 {
      len := len - 1;
    }
    assert st != [] ==> out[..len] == if cut == 0 then s[..1] else s[..cut];
  }

  /** One more name, if it fits with its slash and the terminator. */
  method PushSpelled(path: string, start: nat, end: nat, out: array<char>, len0: nat, size: nat, ghost st: seq<string>)
    returns (ok: bool, len: nat)
    requires 0 < len0 < size <= out.Length && out[..len0] == Spell(st) && AllNames(st)
    requires start < end <= |path|
    modifies out
    ensures ok == (|Render(st + [path[start..end]])| <= size - 1)
    ensures ok ==> 0 < len < size && out[..len] == Render(st + [path[start..end]])
  {
    ghost var name := path[start..end];
    RenderPush(st, name);
    if st != [] { RenderGrows(st, 0); }
    ok, len := false, len0;
    if len > 1 {
      if len + 1 >= size { return; }
      out[len] := '/';
      len := len + 1;
    }
    assert out[..len] == Render(st) + "/";
    var seg := end - start;
    if len + seg >= size { return; }
    forall i | 0 <= i < seg { out[len + i] := path[start + i]; }
    assert out[..len + seg] == Render(st) + "/" + name;
    ok, len := true, len + seg;
  }

  lemma DotSegment(path: string, start: nat, end: nat)
    requires start < end <= |path|
    ensures path[start..end] == "." <==> end - start == 1 && path[start] == '.'
    ensures path[start..end] == ".." <==> end - start == 2 && path[start] == '.' && path[start + 1] == '.'
  {
    var name := path[start..end];
    assert name[0] == path[start];
    if end - start == 1 { assert name == [path[start]]; }
    if end - start == 2 { assert name == [path[start], path[start + 1]]; }
  }

  method NameEnd(path: string, start: nat) returns (end: nat)
    requires start <= |path|
    ensures start <= end <= |path| && end == start + NameLen(path[start..])
  {
    end := start;
    while end < |path| && path[end] != '/'
      invariant start <= end <= start + NameLen(path[start..]) <= |path|
    {
      assert path[start..][end - start] == path[end];
      end := end + 1;
    }
    assert end < |path| ==> path[start..][end - start] == path[end];
  }

  /** One component of the path, put into the buffer or taken as `.` or `..`. */
  method OneSegment(path: string, start: nat, end: nat, out: array<char>, len0: nat, size: nat, ghost st: seq<string>)
    returns (ok: bool, len: nat)
    requires 0 < len0 < size <= out.Length && out[..len0] == Spell(st) && AllNames(st)
    requires start < end <= |path|
    modifies out
    ensures var next := Apply(st, path[start..end], 0);
            && ok == !(|next| > |st| && |Render(next)| > size - 1)
            && (ok ==> 0 < len < size && out[..len] == Spell(next))
  {
    DotSegment(path, start, end);
    var seg := end - start;
    ok, len := true, len0;
    if seg == 1 && path[start] == '.' {
    } else if seg == 2 && path[start] == '.' && path[start + 1] == '.' {
      len := PopSpelled(out, len, st);
    } else {
      ok, len := PushSpelled(path, start, end, out, len, size, st);
    }
  }

  /** bind_mount_normalize: the canonical form of the whole path, or false; never a path cut short. */
  method BindNormalize(path: string, out: array<char>, size: nat) returns (ok: bool, len: nat)
    requires 1 < size <= out.Length
    modifies out
    ensures ok == !Outgrows([], Comps(path), 0, size - 1)
    ensures ok ==> len < size && out[len] == '\0' && out[..len] == Spell(Lexical([], Comps(path), 0))
  {
    out[0] := '/';
    len := 1;
    ghost var st: seq<string> := [];
    var p := 0;
    assert path[0..] == path;
    while p < |path|
      invariant 0 < len < size && Canon(st, out[..len], path, p, size - 1)
    {
      var start := SkipSlashes(path, p);
      var end := NameEnd(path, start);
      if start == end {
        CanonAtEnd(st, out[..len], path, p, size - 1);
      } else {
        CanonStep(st, out[..len], path, p, start, end, size - 1);
        ok, len := OneSegment(path, start, end, out, len, size, st);
        if !ok { return; }
        st := Apply(st, path[start..end], 0);
      }
      p := end;
    }
    assert path[p..] == "";
    CanonNone(st, out[..len], path, p, size - 1);
    out[len] := '\0';
    return true, len;
  }

  // ---------------------------------------------------------------------------------------------
  // Main results on the two normalizers
  // ---------------------------------------------------------------------------------------------

  /** What bind_mount_normalize answers, for a buffer of limit + 1 bytes. */
  function Canonical(path: string, limit: nat): Option<string> {
    if Outgrows([], Comps(path), 0, limit) then None else Some(Spell(Lexical([], Comps(path), 0)))
  }

  lemma {:induction false} PushAll(st: seq<string>, names: seq<string>, limit: nat)
    requires AllNames(st) && Dotless(names)
    ensures Lexical(st, names, 0) == st + names
    ensures |Render(st + names)| <= limit ==> !Outgrows(st, names, 0, limit)
    decreases |names|
  {
    if names == [] {
      assert st + names == st;
    } else {
      assert IsName(names[0]) && names[0] != "." && names[0] != "..";
      PushAll(st + [names[0]], names[1..], limit);
      assert st + [names[0]] + names[1..] == st + names;
      RenderGrows(st + names, |st| + 1);
      assert (st + names)[..|st| + 1] == st + [names[0]];
    }
  }

  lemma CompsOfSpell(st: seq<string>)
    requires AllNames(st)
    ensures Comps(Spell(st)) == st
  {
    if st == [] { assert Skip("/") == ""; } else { CompsOfRender(st); }
  }

  /** The canonical form of a canonical form is itself. */
  lemma CanonicalIsIdempotent(path: string, limit: nat)
    requires limit >= 1 && Canonical(path, limit).Some?
    ensures Canonical(Canonical(path, limit).value, limit) == Canonical(path, limit)
  {
    var st := Lexical([], Comps(path), 0);
    CompsAreNames(path);
    LexicalKeeps([], Comps(path), 0);
    LexicalFits([], Comps(path), 0, limit);
    CompsOfSpell(st);
    PushAll([], st, limit);
    assert [] + st == st;
  }

  lemma {:induction false} OutgrowsLess(st: seq<string>, comps: seq<string>, keep: nat, limit: nat)
    requires Outgrows(st, comps, keep, limit + 1)
    ensures Outgrows(st, comps, keep, limit)
    decreases |comps|
  {
    var next := Apply(st, comps[0], keep);
    if !(|next| > |st| && |Render(next)| > limit) { OutgrowsLess(next, comps[1..], keep, limit); }
  }

  /** Without links and with the machine's own root, the two normalizers compute the same function, up to
      how they write the root; they differ only where a path on the way is exactly one byte too long for
      __path_normalize. */
  lemma NormalizersAgree(env: Env, path: string)
    requires Plain(env) && env.root == "/" && path != ""
    ensures var a, b := Start(env, Some("/"), path, 0), Canonical(path, MAX_PATH - 1);
            && (a.Ok? ==> b == Some(if a.path == "" then "/" else a.path))
            && (a.Ok? <==> !Outgrows([], Comps(path), 0, MAX_PATH - 2)) && (!a.Ok? ==> a == ENAMETOOLONG)
            && (b.Some? && !a.Ok? <==> !Outgrows([], Comps(path), 0, MAX_PATH - 1) && Outgrows([], Comps(path), 0, MAX_PATH - 2))
  {
    NormalizeIsFold(env, Some("/"), path, 0);
    if Outgrows([], Comps(path), 0, MAX_PATH - 1) { OutgrowsLess([], Comps(path), 0, MAX_PATH - 2); }
    var st := Lexical([], Comps(path), 0);
    if st != [] { RenderPush(st[..|st| - 1], st[|st| - 1]); }
  }
}
