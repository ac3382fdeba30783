/**
 The canonical line editor of a terminal (fs/tty.c), with signals off: the input buffer, where a flag
 marks the last byte of a committed line or an end of file, and the reads that take lines out of it.
 */
module TtyLines {

  const BUFFER: nat := 4096
  const EOF_MARK: char := '\0'

  datatype Option<+T> = None | Some(value: T)

  /** A byte of buf with its buf_flag. */
  datatype Cell = Cell(ch: char, flag: bool)

  predicate IsEof(c: Cell) { c.flag && c.ch == EOF_MARK }

  /** The settings the line editor looks at. */
  datatype Config = Config(erase: char, kill: char, eof: char, eol: char, inlcr: bool, icrnl: bool, igncr: bool)

  // ---------------------------------------------------------------------------------------------
  // A simple line editor
  // ---------------------------------------------------------------------------------------------

  /** Lines that can no longer be edited, and the one that can. */
  datatype Editor = Editor(done: seq<Cell>, line: seq<char>)

  function Plain(line: seq<char>): seq<Cell> { seq(|line|, i requires 0 <= i < |line| => Cell(line[i], false)) }

  /** What the buffer holds. */
  function Buffer(e: Editor): seq<Cell> { e.done + Plain(e.line) }

  predicate EndsFlagged(done: seq<Cell>) { done == [] || done[|done| - 1].flag }

  datatype Key = Ignored | Erase | Kill | End(ch: char) | Eof | Typed(ch: char)

  /** What a byte of input means. */
  function Meaning(cfg: Config, byte: char): Key {
    var ch := if cfg.inlcr && byte == '\n' then '\r' else if cfg.icrnl && byte == '\r' then '\n' else byte;
    if cfg.igncr && ch == '\r' then Ignored
    else if ch == '\0' then Typed(ch)
    else if ch == cfg.erase then Erase
    else if ch == cfg.kill then Kill
    else if ch == cfg.eof then Eof
    else if ch == '\n' || ch == cfg.eol then End(ch)
    else Typed(ch)
  }

  /** The key needs a place in the buffer and there is none. */
  predicate Stuck(e: Editor, key: Key) {
    (key.End? || key.Eof? || key.Typed?) && |Buffer(e)| >= BUFFER
  }

  function Press(e: Editor, key: Key): Editor {
    match key
    case Ignored => e
    case Erase => if e.line == [] then e else e.(line := e.line[..|e.line| - 1])
    case Kill => e.(line := [])
    case End(ch) => Editor(e.done + Plain(e.line) + [Cell(ch, true)], [])
    case Eof => Editor(e.done + Plain(e.line) + [Cell(EOF_MARK, true)], [])
    case Typed(ch) => e.(line := e.line + [ch])
  }

  function PressAll(e: Editor, cfg: Config, input: seq<char>): Editor
    decreases |input|
  {
    if input == [] then e else Press(PressAll(e, cfg, input[..|input| - 1]), Meaning(cfg, input[|input| - 1]))
  }

  /** Input never changes what lies before the last flag. */
  lemma {:induction false} InputKeepsCommitted(e: Editor, cfg: Config, input: seq<char>)
    requires EndsFlagged(e.done)
    ensures var after := PressAll(e, cfg, input);
            |e.done| <= |after.done| && after.done[..|e.done|] == e.done && EndsFlagged(after.done)
    decreases |input|
  {
    if input == [] {
      assert e.done[..|e.done|] == e.done;
    } else {
      InputKeepsCommitted(e, cfg, input[..|input| - 1]);
    }
  }

  // ---------------------------------------------------------------------------------------------
  // Reading
  // ---------------------------------------------------------------------------------------------

  /** The first flag. */
  function FirstFlag(cells: seq<Cell>): (k: nat)
    requires exists i :: 0 <= i < |cells| && cells[i].flag
    ensures k < |cells| && cells[k].flag && forall i :: 0 <= i < k ==> !cells[i].flag
  {
    if cells[0].flag then 0 else
      var i :| 0 <= i < |cells| && cells[i].flag;
      assert cells[1..][i - 1].flag;
      1 + FirstFlag(cells[1..])
  }

  predicate HasLine(cells: seq<Cell>) { exists i :: 0 <= i < |cells| && cells[i].flag }

  /** How many bytes a read of at most `max` takes: to the end of the first line, the end-of-file mark
      not included. */
  function Amount(cells: seq<Cell>, max: nat): nat
    requires HasLine(cells)
  {
    var k := FirstFlag(cells);
    var canon := if IsEof(cells[k]) then k else k + 1;
    if max > canon then canon else max
  }

  function Chars(cells: seq<Cell>): seq<char> { seq(|cells|, i requires 0 <= i < |cells| => cells[i].ch) }

  function DropEof(cells: seq<Cell>): seq<Cell> {
    if cells != [] && IsEof(cells[0]) then cells[1..] else cells
  }

  /** The canonical branch of tty_read: what is handed out, and what is left. */
  function Take(cells: seq<Cell>, max: nat): (seq<char>, seq<Cell>)
    requires HasLine(cells)
  {
    var n := Amount(cells, max);
    FirstFlagIn(cells);
    (Chars(cells[..n]), DropEof(cells[n..]))
  }

  lemma FirstFlagIn(cells: seq<Cell>)
    requires HasLine(cells)
    ensures FirstFlag(cells) < |cells|
  {}

  /** The bytes of committed lines, without the end-of-file marks. */
  function Bytes(cells: seq<Cell>): seq<char> {
    if cells == [] then [] else Bytes(cells[..|cells| - 1]) + (if IsEof(cells[|cells| - 1]) then [] else [cells[|cells| - 1].ch])
  }

  lemma {:induction false} BytesAppend(a: seq<Cell>, b: seq<Cell>)
    ensures Bytes(a + b) == Bytes(a) + Bytes(b)
    decreases |b|
  {
    if b == [] {
      assert a + b == a;
    } else {
      BytesAppend(a, b[..|b| - 1]);
      assert (a + b)[..|a + b| - 1] == a + b[..|b| - 1];
    }
  }

  lemma {:induction false} BytesPlain(cells: seq<Cell>)
    requires forall i :: 0 <= i < |cells| ==> !IsEof(cells[i])
    ensures Bytes(cells) == Chars(cells)
    decreases |cells|
  {
    if cells != [] {
      BytesPlain(cells[..|cells| - 1]);
      assert Chars(cells) == Chars(cells[..|cells| - 1]) + [cells[|cells| - 1].ch];
    }
  }

  /** A read hands out the bytes in order and loses none: only marks disappear. */
  lemma {:induction false} ReadConservesBytes(cells: seq<Cell>, max: nat)
    requires HasLine(cells)
    ensures var r := Take(cells, max); Bytes(cells) == r.0 + Bytes(r.1)
  {
    var n := Amount(cells, max);
    assert cells == cells[..n] + cells[n..];
    BytesAppend(cells[..n], cells[n..]);
    BytesPlain(cells[..n]);
    DroppedMarkIsNoByte(cells[n..]);
  }

  /** A read is given all of one line or as much of it as it asked for: a read that gets less than it asked for
      stops at the end of a line or at a mark, no end of line is inside what it gets, and a mark that
      answers a read alone is gone after it. */
  lemma {:induction false} ReadIsOneLine(cells: seq<Cell>, max: nat)
    requires HasLine(cells)
    ensures var (given, left) := Take(cells, max); var n := |given|;
      && n <= max && n <= |cells| && (forall i :: 0 <= i < n ==> given[i] == cells[i].ch)
      && (forall i :: 0 <= i < n - 1 ==> !cells[i].flag)
      && (n < max ==> if n > 0 && cells[n - 1].flag then true else n < |cells| && IsEof(cells[n]))
      && (n > 0 && cells[n - 1].flag ==> !IsEof(cells[n - 1]))
      && (n == 0 && max > 0 ==> left == cells[1..])
  {
    FirstFlagIn(cells);
    var k, n := FirstFlag(cells), Amount(cells, max);
    assert |Chars(cells[..n])| == n;
    if n == 0 { assert cells[0..] == cells; }
  }

  lemma {:induction false} DroppedMarkIsNoByte(rest: seq<Cell>)
    ensures Bytes(DropEof(rest)) == Bytes(rest)
  {
    if rest != [] && IsEof(rest[0]) {
      assert rest == rest[..1] + rest[1..];
      BytesAppend(rest[..1], rest[1..]);
      assert rest[..1][..0] == [];
      assert Bytes(rest[..1]) == [];
    }
  }

  // ---------------------------------------------------------------------------------------------
  // Runs
  // ---------------------------------------------------------------------------------------------

  lemma {:induction false} FirstFlagPrefix(done: seq<Cell>, more: seq<Cell>)
    requires HasLine(done)
    ensures HasLine(done + more) && FirstFlag(done + more) == FirstFlag(done)
  {
    var i :| 0 <= i < |done| && done[i].flag;
    assert (done + more)[i].flag;
    var j, k := FirstFlag(done + more), FirstFlag(done);
    assert (done + more)[k] == done[k];
    assert j < |done| ==> (done + more)[j] == done[j];
  }

  lemma CommittedHasLine(e: Editor)
    requires EndsFlagged(e.done)
    ensures HasLine(e.done) <==> e.done != []
    ensures HasLine(Buffer(e)) <==> e.done != []
  {
    if e.done != [] {
      assert e.done[|e.done| - 1].flag;
      FirstFlagPrefix(e.done, Plain(e.line));
    }
  }

  /** A read takes from the committed lines and leaves the line being edited alone. */
  lemma {:induction false} TakeLeavesLine(e: Editor, max: nat)
    requires EndsFlagged(e.done) && e.done != []
    ensures HasLine(e.done) && HasLine(Buffer(e))
    ensures var r := Take(e.done, max);
            Take(Buffer(e), max) == (r.0, Buffer(Editor(r.1, e.line))) && EndsFlagged(r.1)
  {
    CommittedHasLine(e);
    FirstFlagPrefix(e.done, Plain(e.line));
    var b, k := Buffer(e), FirstFlag(e.done);
    assert b[k] == e.done[k];
    var n := Amount(e.done, max);
    assert Amount(b, max) == n <= |e.done|;
    CutInFront(e.done, Plain(e.line), n);
    DropFromFront(e.done[n..], Plain(e.line));
    DropEndsFlagged(e.done, n);
  }

  lemma CutInFront(a: seq<Cell>, b: seq<Cell>, n: nat)
    requires n <= |a|
    ensures (a + b)[..n] == a[..n] && (a + b)[n..] == a[n..] + b
  {}

  lemma DropEndsFlagged(done: seq<Cell>, n: nat)
    requires EndsFlagged(done) && n <= |done|
    ensures EndsFlagged(DropEof(done[n..]))
  {
    assert n < |done| ==> done[n..][|done[n..]| - 1] == done[|done| - 1];
  }

  lemma DropFromFront(a: seq<Cell>, plain: seq<Cell>)
    requires forall i :: 0 <= i < |plain| ==> !plain[i].flag
    ensures DropEof(a + plain) == DropEof(a) + plain
  {
    if a == [] { assert a + plain == plain; } else { assert (a + plain)[1..] == a[1..] + plain; }
  }

  datatype Op = Input(bytes: seq<char>) | Read(max: nat)

  /** A read with no line to read leaves everything as it is. */
  function Next(e: Editor, cfg: Config, op: Op): (Editor, seq<char>) {
    match op
    case Input(bytes) => (PressAll(e, cfg, bytes), [])
    case Read(max) =>
      if !HasLine(e.done) then (e, []) else
        var r := Take(e.done, max);
        (Editor(r.1, e.line), r.0)
  }

  function Outcome(e: Editor, cfg: Config, ops: seq<Op>): (Editor, seq<char>)
    decreases |ops|
  {
    if ops == [] then (e, []) else
      var now := Next(e, cfg, ops[0]);
      var later := Outcome(now.0, cfg, ops[1..]);
      (later.0, now.1 + later.1)
  }

  /** Everything typed. */
  function AllInput(ops: seq<Op>): seq<char> {
    if ops == [] then [] else (if ops[0].Input? then ops[0].bytes else []) + AllInput(ops[1..])
  }

  /** What is already committed does not matter to what is typed next. */
  lemma {:induction false} CommittedInFront(d: seq<Cell>, e: Editor, cfg: Config, input: seq<char>)
    ensures PressAll(Editor(d + e.done, e.line), cfg, input) ==
            Editor(d + PressAll(e, cfg, input).done, PressAll(e, cfg, input).line)
    decreases |input|
  {
    if input != [] {
      var front := input[..|input| - 1];
      CommittedInFront(d, e, cfg, front);
      var mid := PressAll(e, cfg, front);
      var key := Meaning(cfg, input[|input| - 1]);
      if key.End? { InFront(d, mid.done, Plain(mid.line), [Cell(key.ch, true)]); }
      if key.Eof? { InFront(d, mid.done, Plain(mid.line), [Cell(EOF_MARK, true)]); }
    }
  }

  lemma InFront(d: seq<Cell>, a: seq<Cell>, b: seq<Cell>, c: seq<Cell>)
    ensures d + a + b + c == d + (a + b + c)
  {}

  lemma {:induction false} PressAllAppend(e: Editor, cfg: Config, a: seq<char>, b: seq<char>)
    ensures PressAll(e, cfg, a + b) == PressAll(PressAll(e, cfg, a), cfg, b)
    decreases |b|
  {
    if b == [] {
      assert a + b == a;
    } else {
      PressAllAppend(e, cfg, a, b[..|b| - 1]);
      assert (a + b)[..|a + b| - 1] == a + b[..|b| - 1];
    }
  }

  /** Main result: over any run, the bytes read followed by the committed bytes still in the buffer are the
      bytes a simple line editor would have committed from everything typed, in order and without marks. */
  lemma {:induction false} BytesReadAreBytesCommitted(e: Editor, cfg: Config, ops: seq<Op>)
    requires EndsFlagged(e.done)
    ensures var r, all := Outcome(e, cfg, ops), PressAll(e, cfg, AllInput(ops));
            r.1 + Bytes(r.0.done) == Bytes(all.done) && r.0.line == all.line
    decreases |ops|
  {
    if ops == [] {
      assert [] + Bytes(e.done) == Bytes(e.done);
    } else {
      var now := Next(e, cfg, ops[0]);
      var later := Outcome(now.0, cfg, ops[1..]);
      NextEndsFlagged(e, cfg, ops[0]);
      BytesReadAreBytesCommitted(now.0, cfg, ops[1..]);
      NothingInFront(later.1);
      NothingInFront(AllInput(ops[1..]));
      match ops[0]
      case Input(bytes) => PressAllAppend(e, cfg, bytes, AllInput(ops[1..]));
      case Read(max) => ReadThenRest(e, now.0, now.1, later, cfg, AllInput(ops[1..]), max);
    }
  }

  lemma {:induction false} NextEndsFlagged(e: Editor, cfg: Config, op: Op)
    requires EndsFlagged(e.done)
    ensures EndsFlagged(Next(e, cfg, op).0.done)
  {
    match op
    case Input(bytes) => InputKeepsCommitted(e, cfg, bytes);
    case Read(max) =>
      CommittedHasLine(e);
      if e.done != [] { TakeLeavesLine(e, max); }
  }

  lemma NothingInFront(s: seq<char>)
    ensures [] + s == s
  {}

  lemma Chain(out: seq<char>, read: seq<char>, kept: seq<char>, after: seq<char>, more: seq<char>, before: seq<char>)
    requires read + kept == after + more && before == out + after
    ensures out + read + kept == before + more
  {
    assert out + read + kept == out + (read + kept);
    assert out + (after + more) == out + after + more;
  }

  lemma {:induction false} ReadThenRest(e: Editor, after: Editor, out: seq<char>, later: (Editor, seq<char>), cfg: Config, input: seq<char>, max: nat)
    requires EndsFlagged(e.done) && (after, out) == Next(e, cfg, Read(max))
    requires later.1 + Bytes(later.0.done) == Bytes(PressAll(after, cfg, input).done)
    requires later.0.line == PressAll(after, cfg, input).line
    ensures out + later.1 + Bytes(later.0.done) == Bytes(PressAll(e, cfg, input).done)
    ensures later.0.line == PressAll(e, cfg, input).line
  {
    if HasLine(e.done) {
      ReadConservesBytes(e.done, max);
      var blank := Editor([], e.line);
      CommittedInFront(e.done, blank, cfg, input);
      CommittedInFront(after.done, blank, cfg, input);
      assert e.done + [] == e.done && after.done + [] == after.done;
      var new_ := PressAll(blank, cfg, input).done;
      BytesAppend(e.done, new_);
      BytesAppend(after.done, new_);
      Chain(out, later.1, Bytes(later.0.done), Bytes(after.done), Bytes(new_), Bytes(e.done));
    } else {
      assert [] + later.1 == later.1;
    }
  }

  // ---------------------------------------------------------------------------------------------
  // What the special characters do
  // ---------------------------------------------------------------------------------------------

  /** A byte after the translation of newlines and carriage returns. */
  predicate TranslatesTo(cfg: Config, byte: char, ch: char) {
    && (byte == '\n' && cfg.inlcr ==> ch == '\r')
    && (byte == '\r' && cfg.icrnl ==> ch == '\n')
    && (!(byte == '\n' && cfg.inlcr) && !(byte == '\r' && cfg.icrnl) ==> ch == byte)
  }

  /** One more byte typed: VERASE takes the last byte of the edited line if there is one, VKILL all of it,
      neither touches what is committed; VEOF commits the line with a mark that is no byte, a newline or VEOL
      commits the line and itself; an ignored carriage return does nothing, and NUL is never special. */
  lemma {:induction false} KeystrokeMeaning(e: Editor, cfg: Config, input: seq<char>, byte: char, ch: char)
    requires TranslatesTo(cfg, byte, ch)
    ensures var was, now := PressAll(e, cfg, input), PressAll(e, cfg, input + [byte]);
      if ch == '\r' && cfg.igncr then now == was
      else if ch != '\0' && ch == cfg.erase then
        now.done == was.done && now.line <= was.line && |now.line| == (if was.line == [] then 0 else |was.line| - 1)
      else if ch != '\0' && ch == cfg.kill then now.done == was.done && now.line == []
      else if ch != '\0' && ch == cfg.eof then
        && now.line == [] && Bytes(now.done) == Bytes(was.done) + was.line
        && |now.done| == |was.done| + |was.line| + 1 && IsEof(now.done[|now.done| - 1])
      else if ch == '\n' || (ch != '\0' && ch == cfg.eol) then
        && now.line == [] && Bytes(now.done) == Bytes(was.done) + (was.line + [ch])
        && |now.done| == |was.done| + |was.line| + 1 && now.done[|now.done| - 1].flag
      else now.done == was.done && now.line == was.line + [ch]
  {
    assert (input + [byte])[..|input|] == input;
    var was := PressAll(e, cfg, input);
    CommittedBytes(was.done, was.line, ch);
  }

  lemma {:induction false} CommittedBytes(done: seq<Cell>, line: seq<char>, ch: char)
    ensures Bytes(done + Plain(line) + [Cell(EOF_MARK, true)]) == Bytes(done) + line
    ensures ch != EOF_MARK ==> Bytes(done + Plain(line) + [Cell(ch, true)]) == Bytes(done) + (line + [ch])
  {
    PlainBytes(line);
    BytesAppend(done, Plain(line));
    LastByte(done + Plain(line), Cell(EOF_MARK, true));
    LastByte(done + Plain(line), Cell(ch, true));
    assert Bytes(done) + line + [ch] == Bytes(done) + (line + [ch]);
    assert Bytes(done) + line + [] == Bytes(done) + line;
  }

  lemma {:induction false} PlainBytes(line: seq<char>)
    ensures Bytes(Plain(line)) == line
  {
    BytesPlain(Plain(line));
    assert Chars(Plain(line)) == line;
  }

  lemma {:induction false} LastByte(cells: seq<Cell>, c: Cell)
    ensures Bytes(cells + [c]) == Bytes(cells) + if IsEof(c) then [] else [c.ch]
  {
    assert (cells + [c])[..|cells|] == cells;
  }

  /** A byte typed and erased leaves everything as it was. */
  lemma {:induction false} EraseUndoesTyping(e: Editor, cfg: Config, input: seq<char>, byte: char)
    requires cfg.erase !in {'\0', '\r', '\n'}
    requires byte !in {'\r', '\n'} && (byte == '\0' || byte !in {cfg.erase, cfg.kill, cfg.eof, cfg.eol})
    ensures PressAll(e, cfg, input + [byte] + [cfg.erase]) == PressAll(e, cfg, input)
  {
    KeystrokeMeaning(e, cfg, input, byte, byte);
    KeystrokeMeaning(e, cfg, input + [byte], cfg.erase, cfg.erase);
    var was, now := PressAll(e, cfg, input), PressAll(e, cfg, input + [byte] + [cfg.erase]);
    assert now.line == (was.line + [byte])[..|was.line|] == was.line;
  }

  // ---------------------------------------------------------------------------------------------
  // End of file
  // ---------------------------------------------------------------------------------------------

  /** Section 11.1.9 of XBD in IEEE Std 1003.1-2017: a mark goes with the bytes that wait before it on its
      line; with none, it answers a read of its own with a count of zero. */
  function TakePosix(cells: seq<Cell>, max: nat): (seq<char>, seq<Cell>)
    requires HasLine(cells)
  {
    var n := Amount(cells, max);
    FirstFlagIn(cells);
    if n == 0 || !cells[n - 1].flag then (Chars(cells[..n]), DropEof(cells[n..])) else (Chars(cells[..n]), cells[n..])
  }

  /** The code meets it exactly when no end-of-file mark comes directly after a line read to its end. */
  lemma EofAfterLineIsLost(cells: seq<Cell>, max: nat)
    requires HasLine(cells)
    ensures var k := FirstFlag(cells);
            Take(cells, max) == TakePosix(cells, max)
            <==> !(max > k && !IsEof(cells[k]) && k + 1 < |cells| && IsEof(cells[k + 1]))
  {
    var k, n := FirstFlag(cells), Amount(cells, max);
    if n > 0 { assert cells[n - 1].flag <==> n == k + 1; }
    if n == k + 1 && n < |cells| { assert cells[n..][0] == cells[n] && |cells[n..][1..]| != |cells[n..]|; }
  }

  /** A line and an end of file typed before the line is read: the reader never sees the end of file. */
  lemma LostEof()
    ensures var cells := [Cell('a', false), Cell('\n', true), Cell(EOF_MARK, true)];
            HasLine(cells) && Take(cells, 10) == (['a', '\n'], [])
  {
    var cells := [Cell('a', false), Cell('\n', true), Cell(EOF_MARK, true)];
    assert cells[1].flag;
    assert FirstFlag(cells) == 1;
    assert Chars(cells[..2]) == ['a', '\n'];
    assert cells[2..][1..] == [];
  }
}
