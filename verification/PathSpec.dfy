/**
 Lexical path resolution (fs/path.c, fs/fake.c): what a path string means, as a walk over its
 components, and the stack of names that a normalized path spells.
 */
module PathSpec {

  const MAX_PATH: nat := 4096

  datatype Option<+T> = None | Some(value: T)

  datatype Result = Ok(path: string) | ENOENT | ENAMETOOLONG | ELOOP | Err(code: int)

  /** What a walk asks of its surroundings. `floor` is how much of a path belongs to the process's own root;
      `readlink` is what a name that is a link stands for; `probe` is the error, if negative, of going on
      through a name that is not. */
  datatype Env = Env(root: string, follow: bool, readlink: string -> Option<string>, probe: string -> int)

  function Floor(env: Env): nat { if env.root == "/" then 0 else |env.root| }

  /** What is left after leading slashes. */
  function Skip(s: string): (r: string)
    ensures |r| <= |s| && (r == "" || r[0] != '/')
  {
    if s != "" && s[0] == '/' then Skip(s[1..]) else s
  }

  /** The length of the name a string starts with. */
  function NameLen(s: string): (n: nat)
    ensures n <= |s| && (forall i :: 0 <= i < n ==> s[i] != '/') && (n < |s| ==> s[n] == '/')
  {
    if s == "" || s[0] == '/' then 0 else 1 + NameLen(s[1..])
  }

  /** The index of the last slash, or 0. */
  function LastSlash(s: string): (i: nat)
    ensures s != "" ==> i < |s|
    ensures forall j :: i < j < |s| ==> s[j] != '/'
    ensures s != "" && s[0] == '/' ==> s[i] == '/'
  {
    if |s| <= 1 then 0 else if s[|s| - 1] == '/' then |s| - 1 else LastSlash(s[..|s| - 1])
  }

  /** `..`: the last component goes, unless what is there belongs to the root. */
  function Pop(out: string, floor: nat): string {
    if out != "" && |out| > floor then out[..LastSlash(out)] else out
  }

  function More(rest: string): string { if rest == "" then "" else "/" + rest }

  /** __path_normalize from the base it starts at. */
  function Start(env: Env, at: Option<string>, path: string, levels: nat): Result
    requires levels <= 6
    decreases 6 - levels, |path|, 2
  {
    if path == "" then ENOENT
    else if at == None || at.value == "/" then Walk(env, "", path, levels)
    else if |at.value| + 2 > MAX_PATH - 1 then ENAMETOOLONG
    else Walk(env, at.value, path, levels)
  }

  /** The component loop of __path_normalize. */
  function Walk(env: Env, out: string, path: string, levels: nat): Result
    requires levels <= 6
    decreases 6 - levels, |path|, 0
  {
    var s := Skip(path);
    if s == "" then Ok(out) else
      var name, tail := s[..NameLen(s)], s[NameLen(s)..];
      if name == "." then Walk(env, out, Skip(tail), levels)
      else if name == ".." then Walk(env, Pop(out, Floor(env)), Skip(tail), levels)
      else AfterName(env, out, name, tail, Skip(tail), levels)
  }

  /** An ordinary name: `tail` is what follows it, `rest` the same without leading slashes. */
  function AfterName(env: Env, out: string, name: string, tail: string, rest: string, levels: nat): Result
    requires levels <= 6
    decreases 6 - levels, |rest|, 1
  {
    var longer := out + "/" + name;
    if |longer| > MAX_PATH - 2 then ENAMETOOLONG
    else if (env.follow || rest != "") && env.readlink(longer).Some? then
      var target := env.readlink(longer).value;
      if levels >= 5 then ELOOP
      else if target != "" && target[0] == '/' then Start(env, Some(env.root), target + More(rest), levels + 1)
      else Start(env, None, out + "/" + target + More(rest), levels + 1)
    else if (env.follow || rest != "") && tail != "" && env.probe(longer) < 0 then Err(env.probe(longer))
    else Walk(env, longer, rest, levels)
  }

  // ---------------------------------------------------------------------------------------------
  // Stacks of names
  // ---------------------------------------------------------------------------------------------

  predicate IsName(n: string) { n != "" && forall i :: 0 <= i < |n| ==> n[i] != '/' }

  predicate AllNames(st: seq<string>) { forall i :: 0 <= i < |st| ==> IsName(st[i]) }

  /** The path a stack of names spells; the root is the empty string. */
  function Render(st: seq<string>): string {
    if st == [] then "" else Render(st[..|st| - 1]) + "/" + st[|st| - 1]
  }

  /** The components of a path. */
  function Comps(path: string): seq<string>
    decreases |path|
  {
    var s := Skip(path);
    if s == "" then [] else [s[..NameLen(s)]] + Comps(s[NameLen(s)..])
  }

  lemma FirstIsName(s: string)
    requires s != "" && s[0] != '/'
    ensures IsName(s[..NameLen(s)])
  {}

  lemma {:induction false} CompsAreNames(path: string)
    ensures AllNames(Comps(path))
    decreases |path|
  {
    var s := Skip(path);
    if s != "" {
      FirstIsName(s);
      CompsAreNames(s[NameLen(s)..]);
    }
  }

  /** One component: `keep` names belong to the root. */
  function Apply(st: seq<string>, c: string, keep: nat): seq<string> {
    if c == "." then st
    else if c == ".." then (if |st| > keep then st[..|st| - 1] else st)
    else st + [c]
  }

  function Lexical(st: seq<string>, comps: seq<string>, keep: nat): seq<string>
    decreases |comps|
  {
    if comps == [] then st else Lexical(Apply(st, comps[0], keep), comps[1..], keep)
  }

  /** On the way some path is longer than `limit`. */
  predicate Outgrows(st: seq<string>, comps: seq<string>, keep: nat, limit: nat)
    decreases |comps|
  {
    comps != [] &&
      (var next := Apply(st, comps[0], keep);
       (|next| > |st| && |Render(next)| > limit) || Outgrows(next, comps[1..], keep, limit))
  }

  lemma RenderPush(st: seq<string>, n: string)
    ensures Render(st + [n]) == Render(st) + "/" + n
  {
    assert (st + [n])[..|st|] == st;
  }

  lemma {:induction false} LastSlashOf(s: string, n: string)
    requires forall i :: 0 <= i < |n| ==> n[i] != '/'
    ensures LastSlash(s + "/" + n) == |s|
    decreases |n|
  {
    var all := s + "/" + n;
    if n == "" {
      assert all == s + "/" && all[|all| - 1] == '/';
      if s == "" {}
    } else {
      assert all[|all| - 1] == n[|n| - 1];
      assert all[..|all| - 1] == s + "/" + n[..|n| - 1];
      LastSlashOf(s, n[..|n| - 1]);
    }
  }

  lemma PopRender(st: seq<string>, n: string, floor: nat)
    requires IsName(n) && |Render(st)| >= floor
    ensures Pop(Render(st + [n]), floor) == Render(st)
  {
    RenderPush(st, n);
    LastSlashOf(Render(st), n);
    assert (Render(st) + "/" + n)[..|Render(st)|] == Render(st);
  }

  /** Longer stacks spell longer paths. */
  lemma {:induction false} RenderGrows(st: seq<string>, k: nat)
    requires AllNames(st) && k <= |st|
    ensures |Render(st)| >= |Render(st[..k])| + 2 * (|st| - k)
    decreases |st|
  {
    if k < |st| {
      RenderGrows(st[..|st| - 1], k);
      assert st[..|st| - 1][..k] == st[..k];
      assert IsName(st[|st| - 1]);
    } else {
      assert st[..k] == st;
    }
  }

  lemma PopIsApply(st: seq<string>, keep: nat, floor: nat)
    requires AllNames(st) && keep <= |st| && floor == |Render(st[..keep])|
    ensures Pop(Render(st), floor) == Render(Apply(st, "..", keep))
  {
    RenderGrows(st, keep);
    if |st| > keep {
      var rest := st[..|st| - 1];
      assert st == rest + [st[|st| - 1]] && rest[..keep] == st[..keep];
      RenderGrows(rest, keep);
      PopRender(rest, st[|st| - 1], floor);
    } else {
      assert st[..keep] == st;
    }
  }

  /** Nothing on the way is a link, and nothing is in the way. */
  ghost predicate Plain(env: Env) {
    forall p :: env.readlink(p) == None && env.probe(p) >= 0
  }

  /** One component of the walk. */
  lemma {:induction false} WalkStep(env: Env, st: seq<string>, path: string, keep: nat, levels: nat)
    requires Plain(env) && AllNames(st) && keep <= |st| && Floor(env) == |Render(st[..keep])| && levels <= 6
    requires Skip(path) != ""
    ensures var s := Skip(path); var name, tail := s[..NameLen(s)], s[NameLen(s)..];
            var next := Apply(st, name, keep);
            && AllNames(next) && keep <= |next| && next[..keep] == st[..keep]
            && Walk(env, Render(st), path, levels) ==
               if |next| > |st| && |Render(next)| > MAX_PATH - 2 then ENAMETOOLONG
               else Walk(env, Render(next), Skip(tail), levels)
  {
    var s := Skip(path);
    var name := s[..NameLen(s)];
    FirstIsName(s);
    if name == ".." {
      PopIsApply(st, keep, Floor(env));
    } else if name != "." {
      RenderPush(st, name);
      var longer := Render(st) + "/" + name;
      assert env.readlink(longer) == None && env.probe(longer) >= 0;
    }
  }

  /** The walk is the fold of the components over the stack it starts from: `.` dropped, `..` popping but
      never below the root; it fails exactly when the path outgrows the buffer on the way. */
  lemma {:induction false} WalkIsFold(env: Env, st: seq<string>, path: string, keep: nat, levels: nat)
    requires Plain(env) && AllNames(st) && keep <= |st| && Floor(env) == |Render(st[..keep])| && levels <= 6
    ensures Walk(env, Render(st), path, levels) ==
            if Outgrows(st, Comps(path), keep, MAX_PATH - 2) then ENAMETOOLONG else Ok(Render(Lexical(st, Comps(path), keep)))
    decreases |path|
  {
    var s := Skip(path);
    if s != "" {
      var name, tail := s[..NameLen(s)], s[NameLen(s)..];
      var next := Apply(st, name, keep);
      WalkStep(env, st, path, keep, levels);
      CompsSkip(tail);
      assert Comps(path) == [name] + Comps(tail) && Comps(path)[1..] == Comps(tail);
      if !(|next| > |st| && |Render(next)| > MAX_PATH - 2) {
        WalkIsFold(env, next, Skip(tail), keep, levels);
      }
    }
  }

  lemma CompsSkip(path: string)
    ensures Comps(Skip(path)) == Comps(path)
  {
    assert Skip(Skip(path)) == Skip(path);
  }

  // ---------------------------------------------------------------------------------------------
  // What comes out
  // ---------------------------------------------------------------------------------------------

  /** The names left on the stack are never dots, if there were none to begin with. */
  predicate Dotless(st: seq<string>) {
    AllNames(st) && forall i :: 0 <= i < |st| ==> st[i] != "." && st[i] != ".."
  }

  lemma {:induction false} LexicalKeeps(st: seq<string>, comps: seq<string>, keep: nat)
    requires Dotless(st) && AllNames(comps) && keep <= |st|
    ensures var r := Lexical(st, comps, keep); Dotless(r) && keep <= |r| && r[..keep] == st[..keep]
    decreases |comps|
  {
    if comps != [] {
      var next := Apply(st, comps[0], keep);
      assert next[..keep] == st[..keep];
      LexicalKeeps(next, comps[1..], keep);
    }
  }

  lemma {:induction false} LexicalFits(st: seq<string>, comps: seq<string>, keep: nat, limit: nat)
    requires AllNames(st) && AllNames(comps) && keep <= |st| && |Render(st)| <= limit && !Outgrows(st, comps, keep, limit)
    ensures |Render(Lexical(st, comps, keep))| <= limit
    decreases |comps|
  {
    if comps != [] {
      var next := Apply(st, comps[0], keep);
      assert !(|next| > |st| && |Render(next)| > limit) && !Outgrows(next, comps[1..], keep, limit);
      ApplyFits(st, comps[0], keep, limit);
      LexicalFits(next, comps[1..], keep, limit);
    }
  }

  lemma ApplyFits(st: seq<string>, c: string, keep: nat, limit: nat)
    requires AllNames(st) && IsName(c) && keep <= |st| && |Render(st)| <= limit
    ensures var next := Apply(st, c, keep);
            AllNames(next) && keep <= |next| && (|next| <= |st| ==> |Render(next)| <= limit)
  {
    if |Apply(st, c, keep)| < |st| { RenderGrows(st, |st| - 1); }
  }

  /** path_is_normalized, from a slash or the end on. */
  predicate Normalized(s: string)
    decreases |s|
  {
    s == "" || (s[0] == '/' && (|s| > 1 ==> s[1] != '/') && Normalized(s[1 + NameLen(s[1..])..]))
  }

  /** What path_is_normalized accepts: the spelling of a stack of names, or one followed by a slash. */
  lemma {:induction false} NormalizedMeaning(s: string)
    ensures Normalized(s) <==> s == Render(Comps(s)) || s == Render(Comps(s)) + "/"
  {
    NormalizedAfter([], s);
    assert [] + Comps(s) == Comps(s) && Render([]) + s == s;
  }

  lemma {:induction false} NormalizedAfter(st: seq<string>, s: string)
    ensures Normalized(s) <==> Render(st) + s == Render(st + Comps(s)) || Render(st) + s == Render(st + Comps(s)) + "/"
    decreases |s|
  {
    assert st + [] == st;
    if s == "" {
      assert Render(st) + s == Render(st);
    } else if s[0] != '/' {
      LeadingSlash(st, s);
    } else if |s| > 1 && s[1] == '/' {
      LeadingSlash(st, s);
    } else if |s| == 1 {
      assert Comps(s) == [];
      assert s == "/";
    } else {
      var t := s[1..];
      var name, rest := t[..NameLen(t)], t[NameLen(t)..];
      NormalizedAfter(st + [name], rest);
      FirstComp(st, s);
    }
  }

  /** One slash, one name, and the rest. */
  lemma {:induction false} FirstComp(st: seq<string>, s: string)
    requires |s| > 1 && s[0] == '/' && s[1] != '/'
    ensures var t := s[1..]; var name, rest := t[..NameLen(t)], t[NameLen(t)..];
            && Normalized(s) == Normalized(rest) && st + Comps(s) == st + [name] + Comps(rest)
            && Render(st) + s == Render(st + [name]) + rest
  {
    var t := s[1..];
    var name, rest := t[..NameLen(t)], t[NameLen(t)..];
    SkipOne(s);
    RenderPush(st, name);
    Regroup(Render(st), s, name, rest);
    NextTail(s, NameLen(t));
    ConsComps(st, name, Comps(rest));
  }

  lemma SkipOne(s: string)
    requires |s| > 1 && s[0] == '/' && s[1] != '/'
    ensures Skip(s) == s[1..]
  {}

  lemma NextTail(s: string, n: nat)
    requires n < |s|
    ensures s[1 + n..] == s[1..][n..]
  {}

  lemma ConsComps(st: seq<string>, name: string, comps: seq<string>)
    ensures st + ([name] + comps) == st + [name] + comps
  {}

  lemma Regroup(a: string, s: string, name: string, rest: string)
    requires s != "" && s[0] == '/' && s[1..] == name + rest
    ensures a + s == a + "/" + name + rest
  {
    assert s == "/" + (name + rest);
    assert a + ("/" + (name + rest)) == a + "/" + name + rest;
  }

  /** A string that does not go on with one slash and a name is not the spelling of its components. */
  lemma {:induction false} LeadingSlash(st: seq<string>, s: string)
    requires s != "" && (s[0] != '/' || (|s| > 1 && s[1] == '/'))
    ensures Render(st) + s != Render(st + Comps(s)) && Render(st) + s != Render(st + Comps(s)) + "/"
  {
    var comps := Comps(s);
    CompsAreNames(s);
    RenderFrom(st, comps);
    if comps == [] {
      assert st + comps == st;
      OnlySlashes(s);
      assert s[0] == '/' && s[1] == '/';
    } else {
      var tail := RenderTail(comps);
      assert tail[0] == '/' && tail[1] == comps[0][0] != '/';
      assert (Render(st) + s)[|Render(st)|] == s[0] && (Render(st) + tail)[|Render(st)|] == '/';
      if |s| > 1 { assert (Render(st) + s)[|Render(st)| + 1] == s[1]; }
      assert (Render(st) + tail)[|Render(st)| + 1] == tail[1];
    }
  }

  /** The spelling of a stack, names first to last. */
  function RenderTail(st: seq<string>): string {
    if st == [] then "" else "/" + st[0] + RenderTail(st[1..])
  }

  lemma {:induction false} RenderFrom(a: seq<string>, b: seq<string>)
    ensures Render(a + b) == Render(a) + RenderTail(b)
    decreases |b|
  {
    if b == [] {
      assert a + b == a;
    } else {
      RenderFrom(a + [b[0]], b[1..]);
      RenderPush(a, b[0]);
      UnconsInPlace(a, b);
      assert RenderTail(b) == "/" + b[0] + RenderTail(b[1..]);
      TextInPlace(Render(a), b[0], RenderTail(b[1..]));
    }
  }

  lemma UnconsInPlace(a: seq<string>, b: seq<string>)
    requires b != []
    ensures a + b == a + [b[0]] + b[1..]
  {}

  lemma TextInPlace(a: string, name: string, rest: string)
    ensures a + ("/" + name + rest) == a + "/" + name + rest
  {}

  lemma {:induction false} OnlySlashes(s: string)
    requires Comps(s) == []
    ensures forall i :: 0 <= i < |s| ==> s[i] == '/'
  {
    if s != "" {
      assert s[0] == '/';
      OnlySlashes(s[1..]);
      forall i | 0 < i < |s| ensures s[i] == '/' { assert s[1..][i - 1] == s[i]; }
    }
  }

  /** A stack of names is what its spelling's components are. */
  lemma {:induction false} CompsOfRender(st: seq<string>)
    requires AllNames(st)
    ensures Comps(Render(st)) == st
  {
    RenderFrom([], st);
    assert [] + st == st && "" + RenderTail(st) == RenderTail(st);
    CompsOfTail(st);
  }

  lemma {:induction false} CompsOfTail(st: seq<string>)
    requires AllNames(st)
    ensures Comps(RenderTail(st)) == st
  {
    if st != [] {
      CompsOfTail(st[1..]);
      assert IsName(st[0]);
      NextComp(st[0], RenderTail(st[1..]));
    }
  }

  lemma {:induction false} NextComp(name: string, rest: string)
    requires IsName(name) && (rest == "" || rest[0] == '/')
    ensures Comps("/" + name + rest) == [name] + Comps(rest)
  {
    var s, t := "/" + name + rest, name + rest;
    assert s[0] == '/' && s[1..] == t;
    SkipOne(s);
    NameThen(name, rest);
    assert t[..NameLen(t)] == name && t[NameLen(t)..] == rest;
    assert Skip(s) == t;
  }

  lemma {:induction false} NameThen(name: string, rest: string)
    requires (forall i :: 0 <= i < |name| ==> name[i] != '/') && (rest == "" || rest[0] == '/')
    ensures NameLen(name + rest) == |name| && (name + rest)[..|name|] == name
    decreases |name|
  {
    if name == "" {
      assert name + rest == rest;
    } else {
      NameThen(name[1..], rest);
      assert (name + rest)[1..] == name[1..] + rest;
    }
  }

  // ---------------------------------------------------------------------------------------------
  // Main results on path resolution
  // ---------------------------------------------------------------------------------------------

  /** The base a walk starts from, as a stack. */
  function Base(at: Option<string>): seq<string> {
    if at == None || at.value == "/" then [] else Comps(at.value)
  }

  ghost predicate GoodBase(at: Option<string>) {
    at == None || at.value == "/" || (at.value == Render(Comps(at.value)) && Dotless(Comps(at.value)))
  }

  /** With no links, and a base under the process's root: the fold of the path's components over the base. */
  lemma NormalizeIsFold(env: Env, at: Option<string>, path: string, keep: nat)
    requires Plain(env) && GoodBase(at) && keep <= |Base(at)| && Floor(env) == |Render(Base(at)[..keep])|
    ensures Start(env, at, path, 0) ==
            if path == "" then ENOENT
            else if |Render(Base(at))| + 2 > MAX_PATH - 1 || Outgrows(Base(at), Comps(path), keep, MAX_PATH - 2) then ENAMETOOLONG
            else Ok(Render(Lexical(Base(at), Comps(path), keep)))
  {
    var st := Base(at);
    CompsAreNames(if at == None then "" else at.value);
    assert st[..|st|] == st;
    if path != "" && |Render(st)| + 2 <= MAX_PATH - 1 { WalkIsFold(env, st, path, keep, 0); }
  }

  /** The result is under the process's root, is normalized, and fits with its terminator. */
  lemma NormalizeStaysUnderRoot(env: Env, at: Option<string>, path: string, keep: nat)
    requires Plain(env) && GoodBase(at) && keep <= |Base(at)| && Floor(env) == |Render(Base(at)[..keep])|
    requires Start(env, at, path, 0).Ok?
    ensures var out := Start(env, at, path, 0).path;
            && Normalized(out) && |out| + 1 <= MAX_PATH && Dotless(Comps(out))
            && keep <= |Comps(out)| && Comps(out)[..keep] == Base(at)[..keep]
  {
    NormalizeIsFold(env, at, path, keep);
    CompsAreNames(path);
    var st := Base(at);
    var end := Lexical(st, Comps(path), keep);
    LexicalKeeps(st, Comps(path), keep);
    LexicalFits(st, Comps(path), keep, MAX_PATH - 2);
    CompsOfRender(end);
    NormalizedMeaning(Render(end));
  }

  /** The limit is one byte less than the buffer holds with its terminator. */
  lemma NormalizeIsOneByteShort(env: Env, name: string)
    requires Plain(env) && env.root == "/" && |name| == MAX_PATH - 2 && IsName(name) && name != "." && name != ".."
    ensures Start(env, Some("/"), name, 0) == ENAMETOOLONG && |"/" + name| + 1 == MAX_PATH
  {
    CompsOfName(name);
    RenderPush([], name);
    NormalizeIsFold(env, Some("/"), name, 0);
  }

  lemma CompsOfName(name: string)
    requires IsName(name)
    ensures Comps(name) == [name]
  {
    NameThen(name, "");
    assert name + "" == name && name[..|name|] == name;
    assert Skip(name) == name && Comps("") == [];
  }
}
