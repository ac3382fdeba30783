/**
 Path resolution with links (fs/path.c) as a fold over stacks of names: what a link does to a walk, said
 of components instead of strings.
 */
module PathLinks {
  import opened PathSpec

  // ---------------------------------------------------------------------------------------------
  // The fold
  // ---------------------------------------------------------------------------------------------

  predicate EndsInSlash(s: string) { s != "" && s[|s| - 1] == '/' }

  predicate IsAbsolute(s: string) { s != "" && s[0] == '/' }

  /** Whether a slash ends the path once a link is replaced; `last` says that it was the last component. */
  function SlashAfter(target: string, last: bool, slash: bool): bool {
    if last then target == "" || EndsInSlash(target) else slash
  }

  function RootStack(env: Env): seq<string> { if env.root == "/" then [] else Comps(env.root) }

  /** The parent, unless what is there belongs to the process's root. */
  function Parent(env: Env, st: seq<string>): seq<string> {
    var kept := if env.root == "/" then 0 else |env.root|;
    if st != [] && |Render(st)| > kept then st[..|st| - 1] else st
  }

  /** The components still to come are taken one by one over the stack so far. A name that is a link gives way
      to the components of its target: an absolute one starts over at the process's root, a relative one
      goes through the stack again. `slash` says that a slash follows the last component, and `left` how
      many links may still be followed. The last name is not followed unless the call asks for it. */
  function Follow(env: Env, st: seq<string>, comps: seq<string>, slash: bool, left: nat): Result
    decreases left, |comps|
  {
    if comps == [] then Ok(Render(st)) else
      var name, rest := comps[0], comps[1..];
      var longer := Render(st + [name]);
      var through := env.follow || rest != [];
      if name == "." then Follow(env, st, rest, slash, left)
      else if name == ".." then Follow(env, Parent(env, st), rest, slash, left)
      else if |longer| + 1 >= 4096 then ENAMETOOLONG
      else if through && env.readlink(longer).Some? then
        var target := env.readlink(longer).value;
        var more := Comps(target) + rest;
        var slash' := SlashAfter(target, rest == [], slash);
        if left == 0 then ELOOP
        else if !IsAbsolute(target) then Follow(env, [], st + more, slash', left - 1)
        else if env.root != "/" && |env.root| + 2 >= 4096 then ENAMETOOLONG
        else Follow(env, RootStack(env), more, slash', left - 1)
      else if through && (rest != [] || slash) && env.probe(longer) < 0 then Err(env.probe(longer))
      else Follow(env, st + [name], rest, slash, left)
  }

  // ---------------------------------------------------------------------------------------------
  // Components of joined strings
  // ---------------------------------------------------------------------------------------------

  lemma {:induction false} SkipJoin(a: string, x: string)
    ensures Skip(a + x) == if Skip(a) != "" then Skip(a) + x else Skip(x)
    decreases |a|
  {
    if a == "" {
      assert a + x == x;
    } else {
      assert (a + x)[1..] == a[1..] + x;
      if a[0] == '/' { SkipJoin(a[1..], x); }
    }
  }

  /** Everything after the first name, with the same ending. */
  lemma {:induction false} FirstOfJoin(s: string, b: string)
    requires s != "" && s[0] != '/'
    ensures var whole, n := s + ("/" + b), NameLen(s);
            n <= |whole| && NameLen(whole) == n && whole[..n] == s[..n] && whole[n..] == s[n..] + ("/" + b)
  {
    var n := NameLen(s);
    var tail := s[n..] + ("/" + b);
    assert s[..n] + tail == s + ("/" + b);
    NameThen(s[..n], tail);
  }

  lemma {:induction false} CompsOfJoin(s: string, b: string)
    requires s != "" && s[0] != '/'
    ensures Comps(s + ("/" + b)) == [s[..NameLen(s)]] + Comps(s[NameLen(s)..] + ("/" + b))
  {
    FirstOfJoin(s, b);
    var whole := s + ("/" + b);
    assert whole[0] == s[0] && Skip(whole) == whole;
  }

  lemma {:induction false} CompsJoin(a: string, b: string)
    ensures Comps(a + ("/" + b)) == Comps(a) + Comps(b)
    decreases |a|
  {
    SkipJoin(a, "/" + b);
    CompsSkip(a + ("/" + b));
    var s := Skip(a);
    if s == "" {
      assert ("/" + b)[0] == '/' && ("/" + b)[1..] == b;
      CompsSkip(b);
      assert [] + Comps(b) == Comps(b);
    } else {
      var n := NameLen(s);
      CompsOfJoin(s, b);
      CompsJoin(s[n..], b);
      ThreeComps([s[..n]], Comps(s[n..]), Comps(b));
    }
  }

  /** What is left of a path after a component ends as the path does. */
  lemma {:induction false} SkipEnds(s: string)
    ensures Skip(s) != "" ==> EndsInSlash(Skip(s)) == EndsInSlash(s)
    ensures Skip(s) == "" && s != "" ==> EndsInSlash(s)
  {
    if s != "" && s[0] == '/' && s[1..] != "" { SkipEnds(s[1..]); }
  }

  /** The target of a link with the rest of the path behind it. */
  lemma {:induction false} MoreComps(target: string, rest: string)
    requires rest == "" || rest[0] != '/'
    ensures Comps(target + More(rest)) == Comps(target) + Comps(rest)
    ensures EndsInSlash(target + More(rest)) == if rest == "" then EndsInSlash(target) else EndsInSlash(rest)
  {
    if rest == "" {
      assert target + "" == target && Comps(target) + [] == Comps(target);
    } else {
      CompsJoin(target, rest);
      var whole := target + ("/" + rest);
      assert whole[|whole| - 1] == rest[|rest| - 1];
    }
  }

  lemma {:induction false} AddSlash(a: string, target: string)
    ensures a + "/" + target == a + ("/" + target)
    ensures EndsInSlash(a + "/" + target) == (target == "" || EndsInSlash(target))
  {
    var whole := a + "/" + target;
    if target == "" { assert whole[|whole| - 1] == '/'; } else { assert whole[|whole| - 1] == target[|target| - 1]; }
  }

  lemma {:induction false} ThreeComps(a: seq<string>, b: seq<string>, c: seq<string>)
    ensures (a + b) + c == a + (b + c)
  {}

  lemma {:induction false} RelativeComps(st: seq<string>, target: string, rest: string)
    requires AllNames(st) && (rest == "" || rest[0] != '/')
    ensures Comps(Render(st) + "/" + target + More(rest)) == st + (Comps(target) + Comps(rest))
    ensures EndsInSlash(Render(st) + "/" + target + More(rest))
            == SlashAfter(target, rest == "", EndsInSlash(rest))
  {
    AddSlash(Render(st), target);
    CompsJoin(Render(st), target);
    CompsOfRender(st);
    MoreComps(Render(st) + "/" + target, rest);
    ThreeComps(st, Comps(target), Comps(rest));
  }

  // ---------------------------------------------------------------------------------------------
  // The walk over strings is the fold
  // ---------------------------------------------------------------------------------------------

  ghost predicate GoodRoot(env: Env) { env.root == "/" || env.root == Render(Comps(env.root)) }

  lemma {:induction false} PopIsParent(env: Env, st: seq<string>)
    requires AllNames(st)
    ensures Pop(Render(st), Floor(env)) == Render(Parent(env, st)) && AllNames(Parent(env, st))
  {
    if st != [] {
      var rest, n := st[..|st| - 1], st[|st| - 1];
      assert st == rest + [n] && IsName(n);
      RenderPush(rest, n);
      LastSlashOf(Render(rest), n);
      assert (Render(rest) + "/" + n)[..|Render(rest)|] == Render(rest);
    }
  }

  /** The name at the front of a path, what follows it, and its components. */
  lemma {:induction false} FirstName(path: string)
    requires Skip(path) != ""
    ensures var s := Skip(path); var name, tail := s[..NameLen(s)], s[NameLen(s)..];
            && IsName(name) && Comps(path) == [name] + Comps(Skip(tail)) && |Skip(tail)| < |path|
            && (Skip(tail) != "" ==> EndsInSlash(Skip(tail)) == EndsInSlash(path))
            && (Skip(tail) == "" ==> (tail != "" <==> EndsInSlash(path)))
            && (Skip(tail) == "" <==> Comps(Skip(tail)) == [])
  {
    var s := Skip(path);
    var n := NameLen(s);
    var name, tail := s[..n], s[n..];
    FirstIsName(s);
    CompsSkip(tail);
    SkipEnds(path);
    SkipEnds(tail);
    assert s == name + tail;
    if tail == "" { assert s[|s| - 1] == name[|name| - 1]; } else { assert s[|s| - 1] == tail[|tail| - 1]; }
    assert Skip(Skip(tail)) == Skip(tail);
  }

  ghost predicate WalkFollows(env: Env, st: seq<string>, path: string, levels: nat)
    requires levels <= 5
  {
    Walk(env, Render(st), path, levels) == Follow(env, st, Comps(path), EndsInSlash(path), 5 - levels)
  }

  lemma {:induction false} StartsOver(env: Env, path: string, comps: seq<string>, slash: bool, levels: nat)
    requires path != "" && levels < 5 && comps == Comps(path) && slash == EndsInSlash(path)
    requires WalkFollows(env, [], path, levels + 1)
    ensures Start(env, None, path, levels + 1) == Follow(env, [], comps, slash, 5 - (levels + 1))
  {
    assert Render([]) == "";
  }

  lemma {:induction false} StartsAtRoot(env: Env, path: string, comps: seq<string>, slash: bool, levels: nat)
    requires path != "" && levels < 5 && comps == Comps(path) && slash == EndsInSlash(path)
    requires GoodRoot(env) && WalkFollows(env, RootStack(env), path, levels + 1)
    ensures Start(env, Some(env.root), path, levels + 1) ==
            if env.root != "/" && |env.root| + 2 >= 4096 then ENAMETOOLONG
            else Follow(env, RootStack(env), comps, slash, 5 - (levels + 1))
  {
    assert Render([]) == "";
  }

  /** A link with a relative target: the whole thing starts over, through the stack again. */
  lemma {:induction false} RelativeFollows(env: Env, st: seq<string>, target: string, rest: string, slash: bool, levels: nat)
    requires AllNames(st) && GoodRoot(env) && levels < 5 && (rest == "" || rest[0] != '/')
    requires slash == SlashAfter(target, rest == "", EndsInSlash(rest))
    ensures Start(env, None, Render(st) + "/" + target + More(rest), levels + 1)
            == Follow(env, [], st + (Comps(target) + Comps(rest)), slash, 5 - (levels + 1))
    decreases 5 - levels, 0
  {
    RelativeComps(st, target, rest);
    var path := Render(st) + "/" + target + More(rest);
    WalkIsFollow(env, [], path, levels + 1);
    StartsOver(env, path, st + (Comps(target) + Comps(rest)), slash, levels);
  }

  /** One with an absolute target: it starts over at the process's root. */
  lemma {:induction false} AbsoluteFollows(env: Env, target: string, rest: string, slash: bool, levels: nat)
    requires IsAbsolute(target) && GoodRoot(env) && levels < 5 && (rest == "" || rest[0] != '/')
    requires slash == SlashAfter(target, rest == "", EndsInSlash(rest))
    ensures Start(env, Some(env.root), target + More(rest), levels + 1)
            == if env.root != "/" && |env.root| + 2 >= 4096 then ENAMETOOLONG
               else Follow(env, RootStack(env), Comps(target) + Comps(rest), slash, 5 - (levels + 1))
    decreases 5 - levels, 0
  {
    var path := target + More(rest);
    var comps := Comps(target) + Comps(rest);
    assert path != "" && Comps(path) == comps && EndsInSlash(path) == slash by { MoreComps(target, rest); }
    assert AllNames(RootStack(env)) by { CompsAreNames(env.root); }
    WalkIsFollow(env, RootStack(env), path, levels + 1);
    StartsAtRoot(env, path, comps, slash, levels);
  }

  /** With any links and any obstacles, the walk from a stack is the fold over it. */
  lemma {:induction false} WalkIsFollow(env: Env, st: seq<string>, path: string, levels: nat)
    requires AllNames(st) && GoodRoot(env) && levels <= 5
    ensures WalkFollows(env, st, path, levels)
    decreases 5 - levels, |path|
  {
    if Skip(path) != "" {
      var s := Skip(path);
      var name, tail := s[..NameLen(s)], s[NameLen(s)..];
      var rest := Skip(tail);
      FirstName(path);
      CompsSkip(tail);
      assert Comps(path)[0] == name && Comps(path)[1..] == Comps(rest);
      if name == "." {
        WalkIsFollow(env, st, rest, levels);
        if rest == "" { NothingLeft(env, st, EndsInSlash(path), levels); }
      } else if name == ".." {
        PopIsParent(env, st);
        WalkIsFollow(env, Parent(env, st), rest, levels);
        if rest == "" { NothingLeft(env, Parent(env, st), EndsInSlash(path), levels); }
      } else {
        NameFollows(env, st, path, name, tail, levels);
      }
    }
  }

  /** With nothing left it no longer matters whether a slash ended the path. */
  lemma {:induction false} NothingLeft(env: Env, st: seq<string>, slash: bool, levels: nat)
    requires levels <= 5
    ensures Follow(env, st, Comps(""), slash, 5 - levels) == Follow(env, st, Comps(""), EndsInSlash(""), 5 - levels)
  {}

  lemma {:induction false} NameFollows(env: Env, st: seq<string>, path: string, name: string, tail: string, levels: nat)
    requires AllNames(st) && GoodRoot(env) && levels <= 5 && IsName(name) && name != "." && name != ".."
    requires |Skip(tail)| < |path| && Comps(path) == [name] + Comps(Skip(tail))
    requires Skip(tail) != "" ==> EndsInSlash(Skip(tail)) == EndsInSlash(path)
    requires Skip(tail) == "" ==> (tail != "" <==> EndsInSlash(path))
    requires Skip(tail) == "" <==> Comps(Skip(tail)) == []
    ensures AfterName(env, Render(st), name, tail, Skip(tail), levels)
            == Follow(env, st, Comps(path), EndsInSlash(path), 5 - levels)
    decreases 5 - levels, |path|, 0
  {
    var rest := Skip(tail);
    RenderPush(st, name);
    var longer := Render(st) + "/" + name;
    assert Comps(path)[0] == name && Comps(path)[1..] == Comps(rest);
    if (env.follow || rest != "") && env.readlink(longer).Some? {
      var target := env.readlink(longer).value;
      if levels < 5 {
        var slash := SlashAfter(target, rest == "", EndsInSlash(path));
        if IsAbsolute(target) {
          AbsoluteFollows(env, target, rest, slash, levels);
        } else {
          RelativeFollows(env, st, target, rest, slash, levels);
        }
      }
    } else {
      WalkIsFollow(env, st + [name], rest, levels);
      if rest == "" { NothingLeft(env, st + [name], EndsInSlash(path), levels); }
    }
  }

  // ---------------------------------------------------------------------------------------------
  // Results
  // ---------------------------------------------------------------------------------------------

  /** Path resolution with links: the fold of the path's components over the base, with five links to follow
      and the sixth refused. */
  lemma {:induction false} NormalizeFollowsLinks(env: Env, at: Option<string>, path: string)
    requires GoodRoot(env) && (at == None || at.value == "/" || at.value == Render(Comps(at.value)))
    ensures Start(env, at, path, 0) ==
            if path == "" then ENOENT
            else if |Render(Base(at))| + 2 >= 4096 then ENAMETOOLONG
            else Follow(env, Base(at), Comps(path), EndsInSlash(path), 5)
  {
    CompsAreNames(if at == None then "" else at.value);
    WalkIsFollow(env, Base(at), path, 0);
  }

  /** No name of the stack, after those before it, is a link or in the way, and the stack fits. */
  ghost predicate Settled(env: Env, st: seq<string>) {
    && Dotless(st) && |Render(st)| < 4095
    && forall k :: 0 < k <= |st| ==> env.readlink(Render(st[..k])) == None && env.probe(Render(st[..k])) >= 0
  }

  /** A settled stack is gone through without effect. */
  lemma {:induction false} ThroughSettled(env: Env, st: seq<string>, k: nat, more: seq<string>, slash: bool, left: nat)
    requires Settled(env, st) && k <= |st|
    ensures Follow(env, st[..k], st[k..] + more, slash, left) == Follow(env, st, more, slash, left)
    decreases |st| - k
  {
    if k < |st| {
      var comps := st[k..] + more;
      assert comps[0] == st[k] && comps[1..] == st[k + 1..] + more;
      assert st[..k] + [st[k]] == st[..k + 1];
      RenderGrows(st, k + 1);
      ThroughSettled(env, st, k + 1, more, slash, left);
    } else {
      assert st[..k] == st && st[k..] + more == more;
    }
  }

  /** In a settled directory a name that is a link gives way to its target: a relative one goes on from the
      directory, an absolute one from the process's root, and what was still to come follows. */
  lemma {:induction false} LinkIsReplaced(env: Env, st: seq<string>, name: string, rest: seq<string>, slash: bool, left: nat)
    requires Settled(env, st) && IsName(name) && name != "." && name != ".." && |Render(st + [name])| < 4095
    requires (env.follow || rest != []) && env.readlink(Render(st + [name])).Some?
    ensures var target := env.readlink(Render(st + [name])).value;
            var slash' := SlashAfter(target, rest == [], slash);
            Follow(env, st, [name] + rest, slash, left) ==
            if left == 0 then ELOOP
            else if !IsAbsolute(target) then Follow(env, st, Comps(target) + rest, slash', left - 1)
            else if env.root != "/" && |env.root| >= 4094 then ENAMETOOLONG
            else Follow(env, RootStack(env), Comps(target) + rest, slash', left - 1)
  {
    var target := env.readlink(Render(st + [name])).value;
    var slash' := SlashAfter(target, rest == [], slash);
    assert ([name] + rest)[0] == name && ([name] + rest)[1..] == rest;
    if left > 0 {
      ThroughSettled(env, st, 0, Comps(target) + rest, slash', left - 1);
      assert st[..0] == [] && st[0..] == st;
    }
  }
}
