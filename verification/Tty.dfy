/**
 The canonical input and read paths of a terminal (fs/tty.c), on its buffer. The buffer and its flags are
 one array here. Waiting for room or for a line is left to the caller.
 */
module Tty {
  import opened TtyLines

  class Terminal {
    const buf: array<Cell>
    var bufsize: nat
    ghost var editor: Editor

    ghost predicate Shaped()
      reads this`bufsize
    {
      buf.Length == BUFFER && bufsize <= BUFFER
    }

    /** The buffer is what a simple line editor would hold. */
    ghost predicate Valid()
      reads this, buf
    {
      Shaped() && buf[..bufsize] == Buffer(editor) && EndsFlagged(editor.done)
    }

    constructor ()
      ensures Valid() && fresh(buf) && editor == Editor([], [])
    {
      buf := new Cell[BUFFER](_ => Cell(EOF_MARK, false));
      bufsize := 0;
      editor := Editor([], []);
    }

    /** tty_push_char without waiting: false when the buffer is full. */
    method PushChar(ch: char, flag: bool) returns (ok: bool)
      requires Shaped()
      modifies this`bufsize, buf
      ensures Shaped() && ok == (old(bufsize) < BUFFER)
      ensures buf[..bufsize] == if ok then old(buf[..bufsize]) + [Cell(ch, flag)] else old(buf[..bufsize])
    {
      if bufsize >= BUFFER { return false; }
      buf[bufsize] := Cell(ch, flag);
      bufsize := bufsize + 1;
      return true;
    }

    /** The erase and kill loop: back over at most `count` bytes, but not over a flag. */
    method EraseBack(count: nat)
      requires Valid() && count <= bufsize
      modifies this`bufsize, this`editor
      ensures Valid()
      ensures editor == old(editor).(line := old(editor.line)[..if count >= |old(editor.line)| then 0 else |old(editor.line)| - count])
    {
      var i := 0;
      WholeLine(editor);
      while i < count
        invariant i <= count && Valid() && i <= |old(editor.line)| && bufsize == old(bufsize) - i
        invariant editor == old(editor).(line := old(editor.line)[..|old(editor.line)| - i])
      {
        LastCell(editor);
        if buf[bufsize - 1].flag { break; }
        bufsize := bufsize - 1;
        editor := editor.(line := editor.line[..|editor.line| - 1]);
        i := i + 1;
      }
      LastCell(editor);
    }

    /** One byte of input; false when it needs room and there is none. */
    method PressKey(cfg: Config, byte: char) returns (ok: bool)
      requires Valid()
      modifies this`bufsize, this`editor, buf
      ensures Valid() && ok == !Stuck(old(editor), Meaning(cfg, byte))
      ensures editor == if ok then Press(old(editor), Meaning(cfg, byte)) else old(editor)
    {
      ok := true;
      var ch := byte;
      if cfg.inlcr && ch == '\n' { ch := '\r'; } else if cfg.icrnl && ch == '\r' { ch := '\n'; }
      if cfg.igncr && ch == '\r' { return; }
      if ch == '\0' {
        ok := Type(ch);
      } else if ch == cfg.erase || ch == cfg.kill {
        var count := if ch != cfg.erase then bufsize else if bufsize > 0 then 1 else 0;
        EraseBack(count);
      } else if ch == cfg.eof {
        ok := Commit(EOF_MARK);
      } else if ch == '\n' || ch == cfg.eol {
        ok := Commit(ch);
      } else {
        ok := Type(ch);
      }
    }

    method Type(ch: char) returns (ok: bool)
      requires Valid()
      modifies this`bufsize, this`editor, buf
      ensures Valid() && ok == (|Buffer(old(editor))| < BUFFER)
      ensures editor == if ok then Press(old(editor), Typed(ch)) else old(editor)
    {
      TypeCell(editor, ch);
      ok := PushChar(ch, false);
      if ok { editor := editor.(line := editor.line + [ch]); }
    }

    method Commit(ch: char) returns (ok: bool)
      requires Valid()
      modifies this`bufsize, this`editor, buf
      ensures Valid() && ok == (|Buffer(old(editor))| < BUFFER)
      ensures editor == if ok then Press(old(editor), End(ch)) else old(editor)
    {
      ok := PushChar(ch, true);
      if ok {
        editor := Editor(editor.done + Plain(editor.line) + [Cell(ch, true)], []);
        assert Buffer(editor) == editor.done;
      }
    }

    /** The canonical branch of tty_input: how much was taken; it stops at the first byte there is no room
        for. */
    method Input(cfg: Config, input: seq<char>) returns (taken: nat)
      requires Valid()
      modifies this`bufsize, this`editor, buf
      ensures Valid() && taken <= |input| && editor == PressAll(old(editor), cfg, input[..taken])
      ensures taken < |input| ==> Stuck(editor, Meaning(cfg, input[taken]))
    {
      taken := 0;
      while taken < |input|
        invariant taken <= |input| && Valid() && editor == PressAll(old(editor), cfg, input[..taken])
      {
        var ok := PressKey(cfg, input[taken]);
        if !ok { return; }
        assert input[..taken + 1][..taken] == input[..taken];
        taken := taken + 1;
      }
    }

    /** tty_canon_size: the length of the first line with its flagged end. */
    method CanonSize() returns (r: Option<nat>)
      requires Valid()
      ensures r.None? <==> !HasLine(buf[..bufsize])
      ensures r.Some? ==> r.value == FirstFlag(buf[..bufsize]) + 1
    {
      var i := 0;
      while i < bufsize && !buf[i].flag
        invariant i <= bufsize && forall j :: 0 <= j < i ==> !buf[j].flag
      {
        i := i + 1;
      }
      if i == bufsize { return None; }
      assert buf[..bufsize][i].flag;
      FlagAt(buf[..bufsize], i);
      return Some(i + 1);
    }

    /** tty_read_into_buf: the first n bytes go out and the rest moves down. */
    method ReadIntoBuf(n: nat) returns (out: seq<char>)
      requires Shaped() && n <= bufsize
      modifies this`bufsize, buf
      ensures Shaped() && out == Chars(old(buf[..bufsize])[..n]) && buf[..bufsize] == old(buf[..bufsize])[n..]
    {
      out := Chars(buf[..n]);
      ghost var was := buf[..bufsize];
      assert was[..n] == buf[..n];
      bufsize := bufsize - n;
      var i := 0;
      while i < bufsize
        invariant i <= bufsize == |was| - n && Shaped()
        invariant forall j :: 0 <= j < i ==> buf[j] == was[j + n]
        invariant forall j :: i + n <= j < bufsize + n ==> buf[j] == was[j]
      {
        buf[i] := buf[i + n];
        i := i + 1;
      }
      assert buf[..bufsize] == was[n..];
    }

    /** A read of n bytes, and an end-of-file mark at the front afterwards is taken off. */
    method ReadOut(n: nat) returns (out: seq<char>)
      requires Shaped() && n <= bufsize
      modifies this`bufsize, buf
      ensures Shaped() && out == Chars(old(buf[..bufsize])[..n]) && buf[..bufsize] == DropEof(old(buf[..bufsize])[n..])
    {
      out := ReadIntoBuf(n);
      if bufsize > 0 {
        assert buf[..bufsize][0] == buf[0];
        if buf[0].ch == EOF_MARK && buf[0].flag { var mark := ReadIntoBuf(1); }
      }
    }

    /** The canonical branch of tty_read; None when there is no line to read yet. */
    method Read(max: nat) returns (r: Option<seq<char>>)
      requires Valid() && max > 0
      modifies this`bufsize, this`editor, buf
      ensures Valid() && (r.None? <==> old(editor.done) == []) && (r.None? ==> editor == old(editor))
      ensures r.Some? ==> HasLine(old(editor.done)) && (r.value, editor.done) == Take(old(editor.done), max)
      ensures r.Some? ==> editor.line == old(editor.line)
    {
      CommittedHasLine(editor);
      var canon := CanonSize();
      if canon.None? { return None; }
      TakeLeavesLine(editor, max);
      ghost var was, left := buf[..bufsize], Take(editor.done, max).1;
      var size := canon.value;
      assert was[size - 1] == buf[size - 1] && was[size - 1].flag;
      if buf[size - 1].ch == EOF_MARK { size := size - 1; }
      var n := if max > size then size else max;
      assert n == Amount(was, max);
      var out := ReadOut(n);
      editor := Editor(left, editor.line);
      return Some(out);
    }
  }

  lemma WholeLine(e: Editor)
    ensures e.line[..|e.line|] == e.line && e.(line := e.line) == e
  {}

  /** The last byte of the buffer carries a flag exactly when nothing can be erased. */
  lemma LastCell(e: Editor)
    requires EndsFlagged(e.done)
    ensures Buffer(e) != [] ==> (Buffer(e)[|Buffer(e)| - 1].flag <==> e.line == [])
    ensures e.line != [] ==> Buffer(e)[..|Buffer(e)| - 1] == Buffer(e.(line := e.line[..|e.line| - 1]))
    ensures Buffer(e) == [] ==> e.line == []
  {
    if e.line != [] {
      assert Buffer(e)[..|Buffer(e)| - 1] == Buffer(e.(line := e.line[..|e.line| - 1]));
    } else {
      assert Buffer(e) == e.done;
    }
  }

  lemma TypeCell(e: Editor, ch: char)
    ensures Buffer(e) + [Cell(ch, false)] == Buffer(e.(line := e.line + [ch]))
  {}

  lemma FlagAt(cells: seq<Cell>, i: nat)
    requires i < |cells| && cells[i].flag && forall j :: 0 <= j < i ==> !cells[j].flag
    ensures HasLine(cells) && FirstFlag(cells) == i
  {}
}
