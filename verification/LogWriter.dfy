/**
`procLogWriter` (internal/mtproto/process.go:52-104): the sidecar's output arrives in arbitrary
chunks of bytes and is forwarded line by line, trimmed, blank lines dropped. However the stream
is cut, the same lines come out. Characters stand for bytes of UTF-8 text.
*/
module LogWriter {
  import opened Text

  // ---------------------------------------------------------------- trimming

  /** Length of the white space character (`unicode.IsSpace`) encoded at the front of `s`, or 0. */
  function SpaceAtFront(s: string): (n: nat)
    ensures n <= |s|
  {
    if |s| >= 1 && (9 <= s[0] as int <= 13 || s[0] == ' ') then 1
    else if |s| >= 2 && IsSpace2(s[0], s[1]) then 2
    else if |s| >= 3 && IsSpace3(s[0], s[1], s[2]) then 3
    else 0
  }

  function SpaceAtBack(s: string): (n: nat)
    ensures n <= |s|
  {
    var k := |s|;
    if k >= 1 && (9 <= s[k - 1] as int <= 13 || s[k - 1] == ' ') then 1
    else if k >= 2 && IsSpace2(s[k - 2], s[k - 1]) then 2
    else if k >= 3 && IsSpace3(s[k - 3], s[k - 2], s[k - 1]) then 3
    else 0
  }

  /** U+0085 and U+00A0. */
  predicate IsSpace2(a: char, b: char) { a as int == 0xC2 && b as int in {0x85, 0xA0} }

  /** U+1680, U+2000 to U+200A, U+2028, U+2029, U+202F, U+205F and U+3000. */
  predicate IsSpace3(a: char, b: char, c: char) {
    || (a as int == 0xE1 && b as int == 0x9A && c as int == 0x80)
    || (a as int == 0xE2 && b as int == 0x80 && (0x80 <= c as int <= 0x8A || c as int in {0xA8, 0xA9, 0xAF}))
    || (a as int == 0xE2 && b as int == 0x81 && c as int == 0x9F)
    || (a as int == 0xE3 && b as int == 0x80 && c as int == 0x80)
  }

  function TrimFront(s: string): string {
    if SpaceAtFront(s) == 0 then s else TrimFront(s[SpaceAtFront(s)..])
  }

  function TrimBack(s: string): string {
    if SpaceAtBack(s) == 0 then s else TrimBack(s[..|s| - SpaceAtBack(s)])
  }

  /** `strings.TrimRight(s, "\r")`. */
  function TrimReturns(s: string): string {
    if s != "" && s[|s| - 1] == '\r' then TrimReturns(s[..|s| - 1]) else s
  }

  /** What `emitLocked` makes of a line. */
  function Trimmed(line: string): string { TrimBack(TrimFront(TrimReturns(line))) }

  // ---------------------------------------------------------------- what trimming means

  /** The code points Unicode calls white space. */
  predicate IsSpaceRune(c: nat): (space: bool)
    ensures space ==> c < 0x10000
  {
    || 0x09 <= c <= 0x0D || c == 0x20 || c == 0x85 || c == 0xA0 || c == 0x1680 || 0x2000 <= c <= 0x200A
    || c == 0x2028 || c == 0x2029 || c == 0x202F || c == 0x205F || c == 0x3000
  }

  predicate AllSpace(cs: seq<nat>) { forall i :: 0 <= i < |cs| ==> IsSpaceRune(cs[i]) }

  /** A text of white space only. */
  function Spaces(cs: seq<nat>): string
    requires AllSpace(cs)
  {
    if cs == [] then "" else Utf8(cs[0]) + Spaces(cs[1..])
  }

  /** No white space character begins or ends the text. */
  ghost predicate Tight(s: string) {
    forall c :: IsSpaceRune(c) ==>
      var u := Utf8(c); |u| <= |s| ==> s[..|u|] != u && s[|s| - |u|..] != u
  }

  lemma SpaceIsAtFront(c: nat, rest: string)
    requires IsSpaceRune(c)
    ensures SpaceAtFront(Utf8(c) + rest) == |Utf8(c)| && (Utf8(c) + rest)[|Utf8(c)|..] == rest
  {
  }

  lemma SpaceIsAtBack(rest: string, c: nat)
    requires IsSpaceRune(c)
    ensures SpaceAtBack(rest + Utf8(c)) == |Utf8(c)| && (rest + Utf8(c))[..|rest|] == rest
  {
  }

  lemma FrontIsSpace(s: string) returns (c: nat)
    requires SpaceAtFront(s) > 0
    ensures IsSpaceRune(c) && s[..SpaceAtFront(s)] == Utf8(c) && s == Utf8(c) + s[SpaceAtFront(s)..]
  {
    var n := SpaceAtFront(s);
    c := if n == 1 then s[0] as int
         else if n == 2 then s[1] as int
         else (s[0] as int - 0xE0) * 4096 + (s[1] as int - 0x80) * 64 + s[2] as int - 0x80;
  }

  lemma BackIsSpace(s: string) returns (c: nat)
    requires SpaceAtBack(s) > 0
    ensures IsSpaceRune(c) && s[|s| - SpaceAtBack(s)..] == Utf8(c) && s == s[..|s| - SpaceAtBack(s)] + Utf8(c)
  {
    var n := SpaceAtBack(s);
    var tail := s[|s| - n..];
    assert SpaceAtFront(tail) == n && tail[..n] == tail;
    hide SpaceAtFront, SpaceAtBack, Utf8, IsSpaceRune;
    c := FrontIsSpace(tail);
  }

  lemma TightExactly(s: string)
    ensures Tight(s) <==> SpaceAtFront(s) == 0 && SpaceAtBack(s) == 0
  {
    hide SpaceAtFront, SpaceAtBack, Utf8, IsSpaceRune;
    if SpaceAtFront(s) > 0 {
      var c := FrontIsSpace(s);
    } else if SpaceAtBack(s) > 0 {
      var c := BackIsSpace(s);
    } else {
      forall c | IsSpaceRune(c) ensures var u := Utf8(c); |u| <= |s| ==> s[..|u|] != u && s[|s| - |u|..] != u {
        SomeBytes(c);
        var u := Utf8(c);
        if |u| <= |s| {
          SpaceIsAtFront(c, s[|u|..]);
          SpaceIsAtBack(s[..|s| - |u|], c);
          assert s == s[..|u|] + s[|u|..] && s == s[..|s| - |u|] + s[|s| - |u|..];
        }
      }
    }
  }

  lemma SomeBytes(c: nat)
    requires IsSpaceRune(c)
    ensures Utf8(c) != ""
  {
  }

  lemma {:induction false} SpacesSnoc(cs: seq<nat>, c: nat)
    requires AllSpace(cs) && IsSpaceRune(c)
    ensures AllSpace(cs + [c]) && Spaces(cs + [c]) == Spaces(cs) + Utf8(c)
  {
    hide Utf8, IsSpaceRune;
    if cs == [] {
      assert [c][1..] == [];
    } else {
      SpacesSnoc(cs[1..], c);
      assert (cs + [c])[1..] == cs[1..] + [c];
    }
  }

  lemma {:induction false} FrontTrimmed(s: string) returns (a: seq<nat>)
    ensures AllSpace(a) && s == Spaces(a) + TrimFront(s) && SpaceAtFront(TrimFront(s)) == 0
  {
    hide SpaceAtFront, Utf8, IsSpaceRune;
    if SpaceAtFront(s) == 0 {
      a := [];
    } else {
      var n := SpaceAtFront(s);
      var c := FrontIsSpace(s);
      var more := FrontTrimmed(s[n..]);
      a := [c] + more;
      assert a[1..] == more;
      assert Utf8(c) + (Spaces(more) + TrimFront(s)) == (Utf8(c) + Spaces(more)) + TrimFront(s);
    }
  }

  lemma FrontStays(s: string, n: nat)
    requires SpaceAtFront(s) == 0 && n <= |s|
    ensures SpaceAtFront(s[..n]) == 0
  {
  }

  lemma BackStep(s: string) returns (shorter: string, c: nat)
    requires SpaceAtBack(s) > 0
    ensures IsSpaceRune(c) && |shorter| < |s| && s == shorter + Utf8(c) && TrimBack(s) == TrimBack(shorter)
    ensures SpaceAtFront(s) == 0 ==> SpaceAtFront(shorter) == 0
  {
    hide SpaceAtBack, SpaceAtFront, Utf8, IsSpaceRune;
    c := BackIsSpace(s);
    shorter := s[..|s| - SpaceAtBack(s)];
    if SpaceAtFront(s) == 0 {
      FrontStays(s, |s| - SpaceAtBack(s));
    }
  }

  lemma {:induction false} BackTrimmed(s: string) returns (b: seq<nat>)
    ensures AllSpace(b) && s == TrimBack(s) + Spaces(b) && SpaceAtBack(TrimBack(s)) == 0
    ensures SpaceAtFront(s) == 0 ==> SpaceAtFront(TrimBack(s)) == 0
    decreases |s|
  {
    hide Utf8, IsSpaceRune, SpaceAtFront, SpaceAtBack;
    if SpaceAtBack(s) == 0 {
      b := [];
    } else {
      hide TrimBack, Spaces, AllSpace;
      var shorter, c := BackStep(s);
      var more := BackTrimmed(shorter);
      b := more + [c];
      SpacesSnoc(more, c);
      assert (TrimBack(s) + Spaces(more)) + Utf8(c) == TrimBack(s) + (Spaces(more) + Utf8(c));
    }
  }

  lemma {:induction false} ReturnsTrimmed(s: string) returns (b: seq<nat>)
    ensures AllSpace(b) && s == TrimReturns(s) + Spaces(b)
  {
    if s != "" && s[|s| - 1] == '\r' {
      var shorter := s[..|s| - 1];
      var more := ReturnsTrimmed(shorter);
      b := more + [0x0D];
      SpacesSnoc(more, 0x0D);
      assert Utf8(0x0D) == "\r" && s == shorter + "\r";
      assert (TrimReturns(s) + Spaces(more)) + "\r" == TrimReturns(s) + (Spaces(more) + "\r");
    } else {
      b := [];
    }
  }

  lemma {:induction false} SpacesConcat(a: seq<nat>, b: seq<nat>)
    requires AllSpace(a) && AllSpace(b)
    ensures AllSpace(a + b) && Spaces(a + b) == Spaces(a) + Spaces(b)
  {
    hide Utf8, IsSpaceRune;
    if a == [] {
      assert a + b == b;
    } else {
      SpacesConcat(a[1..], b);
      assert (a + b)[1..] == a[1..] + b;
      assert Utf8(a[0]) + (Spaces(a[1..]) + Spaces(b)) == (Utf8(a[0]) + Spaces(a[1..])) + Spaces(b);
    }
  }

  /** A line is what is forwarded between white space, and what is forwarded neither begins nor ends with any. */
  lemma TrimmedBetweenSpaces(line: string) returns (a: seq<nat>, b: seq<nat>)
    ensures AllSpace(a) && AllSpace(b) && line == Spaces(a) + Trimmed(line) + Spaces(b) && Tight(Trimmed(line))
  {
    hide SpaceAtFront, SpaceAtBack, Tight, TrimFront, TrimBack, TrimReturns, Spaces, AllSpace;
    var returns_ := ReturnsTrimmed(line);
    a := FrontTrimmed(TrimReturns(line));
    var back := BackTrimmed(TrimFront(TrimReturns(line)));
    TightExactly(Trimmed(line));
    SpacesConcat(back, returns_);
    b := back + returns_;
    Reassociate(Spaces(a), Trimmed(line), Spaces(back), Spaces(returns_));
  }

  lemma Reassociate(a: string, x: string, b: string, c: string)
    ensures (a + (x + b)) + c == a + x + (b + c)
  {
  }

  // ---------------------------------------------------------------- there is only one such text

  lemma {:induction false} FrontSpacesGo(a: seq<nat>, rest: string)
    requires AllSpace(a) && SpaceAtFront(rest) == 0
    ensures TrimFront(Spaces(a) + rest) == rest
  {
    hide SpaceAtFront, Utf8, IsSpaceRune;
    if a == [] {
      assert Spaces(a) + rest == rest;
    } else {
      var more := Spaces(a[1..]) + rest;
      SpaceIsAtFront(a[0], more);
      SomeBytes(a[0]);
      assert Spaces(a) + rest == Utf8(a[0]) + more;
      FrontSpacesGo(a[1..], rest);
    }
  }

  lemma {:induction false} BackSpacesGo(x: string, b: seq<nat>)
    requires AllSpace(b) && SpaceAtBack(x) == 0
    ensures TrimBack(x + Spaces(b)) == x
  {
    hide SpaceAtBack, Utf8, IsSpaceRune;
    if b == [] {
      assert x + Spaces(b) == x;
    } else {
      var init, c := b[..|b| - 1], b[|b| - 1];
      assert init + [c] == b;
      SpacesSnoc(init, c);
      SpaceIsAtBack(x + Spaces(init), c);
      SomeBytes(c);
      assert x + Spaces(b) == (x + Spaces(init)) + Utf8(c);
      BackSpacesGo(x, init);
    }
  }

  /** Carriage returns cut first are white space behind the text. */
  lemma {:induction false} ReturnsGo(y: string, b: seq<nat>) returns (b': seq<nat>)
    requires AllSpace(b) && (y != "" ==> y[|y| - 1] != '\r')
    ensures AllSpace(b') && TrimReturns(y + Spaces(b)) == y + Spaces(b')
  {
    if b == [] {
      b' := b;
      assert y + Spaces(b) == y;
    } else {
      var init, c := b[..|b| - 1], b[|b| - 1];
      assert init + [c] == b;
      SpacesSnoc(init, c);
      var s := y + Spaces(b);
      assert s == (y + Spaces(init)) + Utf8(c);
      if c == 0x0D {
        assert Utf8(c) == "\r" && s[..|s| - 1] == y + Spaces(init);
        b' := ReturnsGo(y, init);
      } else {
        b' := b;
        LastIsNoReturn(y + Spaces(init), c);
      }
    }
  }

  lemma LastIsNoReturn(s: string, c: nat)
    requires IsSpaceRune(c) && c != 0x0D
    ensures var t := s + Utf8(c); t != "" && t[|t| - 1] != '\r'
  {
  }

  /** White space begins with no continuation byte, so it completes no character before it. */
  lemma SpacesJoinNothing(x: string, b: seq<nat>)
    requires AllSpace(b) && x != "" && SpaceAtFront(x) == 0
    ensures SpaceAtFront(x + Spaces(b)) == 0
  {
    if b != [] {
      var s := x + Spaces(b);
      assert s[|x|] == Utf8(b[0])[0] && !(0x80 <= s[|x|] as int <= 0xBF);
    } else {
      assert x + Spaces(b) == x;
    }
  }

  /** What is forwarded is the only text of the line that has white space around it and none at its ends. */
  lemma TrimmedIsTheOnly(line: string, a: seq<nat>, x: string, b: seq<nat>)
    requires AllSpace(a) && AllSpace(b) && line == Spaces(a) + x + Spaces(b) && Tight(x)
    ensures Trimmed(line) == x
  {
    hide Spaces, Utf8, Tight, SpaceAtFront, SpaceAtBack, AllSpace;
    TightExactly(x);
    if x == "" {
      SpacesConcat(a, b);
      NothingSpaced(a + b);
      assert line == Spaces(a + b);
      OnlySpaces(a + b);
    } else {
      NoReturnAtBack(x);
      assert line == (Spaces(a) + x) + Spaces(b);
      var b' := ReturnsGo(Spaces(a) + x, b);
      SpacesJoinNothing(x, b');
      assert (Spaces(a) + x) + Spaces(b') == Spaces(a) + (x + Spaces(b'));
      FrontSpacesGo(a, x + Spaces(b'));
      BackSpacesGo(x, b');
    }
  }

  lemma NoReturnAtBack(x: string)
    requires x != "" && SpaceAtBack(x) == 0
    ensures x[|x| - 1] != '\r'
  {
  }

  lemma NothingSpaced(cs: seq<nat>)
    requires AllSpace(cs)
    ensures SpaceAtFront("") == 0 && SpaceAtBack("") == 0 && "" + Spaces(cs) == Spaces(cs) == Spaces(cs) + ""
  {
  }

  lemma OnlySpaces(cs: seq<nat>)
    requires AllSpace(cs)
    ensures Trimmed(Spaces(cs)) == ""
  {
    hide Spaces, SpaceAtFront, SpaceAtBack, AllSpace;
    NothingSpaced(cs);
    var cs' := ReturnsGo("", cs);
    NothingSpaced(cs');
    FrontSpacesGo(cs', "");
    NothingBack();
  }

  lemma NothingBack()
    ensures TrimBack("") == ""
  {
  }

  // ---------------------------------------------------------------- the writer as a value

  /** `log` are the lines forwarded so far. */
  datatype Writer = Writer(buf: string, lastLine: string, log: seq<string>)

  const NEW_WRITER := Writer("", "", [])

  function Emitted(w: Writer, line: string): Writer {
    if Trimmed(line) == "" then w else w.(lastLine := Trimmed(line), log := w.log + [Trimmed(line)])
  }

  function EmittedAll(w: Writer, lines: seq<string>): Writer {
    if lines == [] then w else Emitted(EmittedAll(w, lines[..|lines| - 1]), lines[|lines| - 1])
  }

  /** One Write: all complete lines go out, the rest waits. */
  function Fed(w: Writer, p: string): Writer {
    var lines := Split(w.buf + p, '\n');
    var n := |lines| - 1;
    EmittedAll(w, lines[..n]).(buf := lines[n])
  }

  function FedAll(w: Writer, chunks: seq<string>): Writer
    decreases |chunks|
  {
    if chunks == [] then w else FedAll(Fed(w, chunks[0]), chunks[1..])
  }

  function Flushed(w: Writer): Writer { if w.buf == "" then w else Emitted(w.(buf := ""), w.buf) }

  /** The trimmed lines of a text, blank ones left out. */
  function VisibleLines(lines: seq<string>): seq<string> {
    if lines == [] then []
    else
      var n := |lines| - 1;
      VisibleLines(lines[..n]) + (if Trimmed(lines[n]) == "" then [] else [Trimmed(lines[n])])
  }

  function Concat(chunks: seq<string>): string {
    if chunks == [] then "" else chunks[0] + Concat(chunks[1..])
  }

  // ---------------------------------------------------------------- chunking

  /** Text appended to a text only changes its last line. */
  lemma {:induction false} SplitAppend(a: string, b: string)
    ensures var lines := Split(a, '\n');
            Split(a + b, '\n') == lines[..|lines| - 1] + Split(lines[|lines| - 1] + b, '\n')
    decreases |a|
  {
    hide Split, IndexOf;
    SplitStep(a, '\n');
    if '\n' in a {
      var i := IndexOf(a, '\n');
      var line, rest := a[..i], a[i + 1..];
      SplitAppend(rest, b);
      assert a + b == line + ['\n'] + (rest + b);
      SplitFirst(line, '\n', rest + b);
      var tail := Split(rest, '\n');
      assert ([line] + tail)[..|tail|] == [line] + tail[..|tail| - 1];
    }
  }

  lemma {:induction false} EmittedAllAppend(w: Writer, a: seq<string>, b: seq<string>)
    ensures EmittedAll(w, a + b) == EmittedAll(EmittedAll(w, a), b)
  {
    if b == [] {
      assert a + b == a;
    } else {
      var n := |b| - 1;
      EmittedAllAppend(w, a, b[..n]);
      assert (a + b)[..|a + b| - 1] == a + b[..n];
    }
  }

  lemma {:induction false} EmittedAllKeepsBuf(w: Writer, lines: seq<string>, buf: string)
    ensures EmittedAll(w, lines).buf == w.buf
    ensures EmittedAll(w.(buf := buf), lines) == EmittedAll(w, lines).(buf := buf)
  {
    if lines != [] {
      EmittedAllKeepsBuf(w, lines[..|lines| - 1], buf);
    }
  }

  lemma AllButLast(a: seq<string>, b: seq<string>)
    requires b != []
    ensures (a + b)[..|a + b| - 1] == a + b[..|b| - 1] && (a + b)[|a + b| - 1] == b[|b| - 1]
  {}

  /** Two writes are one write of both chunks. */
  lemma FedTwice(w: Writer, p: string, q: string)
    ensures Fed(Fed(w, p), q) == Fed(w, p + q)
  {
    hide Split, EmittedAll;
    var lines := Split(w.buf + p, '\n');
    var n := |lines| - 1;
    SplitAppend(w.buf + p, q);
    assert w.buf + (p + q) == (w.buf + p) + q;
    var more := Split(lines[n] + q, '\n');
    var m := |more| - 1;
    AllButLast(lines[..n], more);
    EmittedAllAppend(w, lines[..n], more[..m]);
    EmittedAllKeepsBuf(EmittedAll(w, lines[..n]), more[..m], lines[n]);
  }

  lemma {:induction false} FedInPieces(w: Writer, chunks: seq<string>)
    requires '\n' !in w.buf
    ensures FedAll(w, chunks) == Fed(w, Concat(chunks))
    decreases |chunks|
  {
    if chunks == [] {
      assert w.buf + "" == w.buf;
      assert IndexOf(w.buf, '\n') == |w.buf|;
      assert Split(w.buf, '\n') == [w.buf];
    } else {
      BufferHoldsNoNewline(w, chunks[0]);
      FedInPieces(Fed(w, chunks[0]), chunks[1..]);
      FedTwice(w, chunks[0], Concat(chunks[1..]));
    }
  }

  lemma {:induction false} LastLineHasNoNewline(s: string)
    ensures var lines := Split(s, '\n'); '\n' !in lines[|lines| - 1]
    decreases |s|
  {
    hide Split, IndexOf;
    SplitStep(s, '\n');
    if '\n' in s {
      LastLineHasNoNewline(s[IndexOf(s, '\n') + 1..]);
    }
  }

  /** Between calls the buffer holds no newline. */
  lemma BufferHoldsNoNewline(w: Writer, p: string)
    ensures '\n' !in Fed(w, p).buf
  {
    LastLineHasNoNewline(w.buf + p);
  }

  lemma {:induction false} EmittedAllLog(lines: seq<string>)
    ensures var w := EmittedAll(NEW_WRITER, lines);
            && w.log == VisibleLines(lines)
            && w.lastLine == (if w.log == [] then "" else w.log[|w.log| - 1])
  {
    if lines != [] {
      EmittedAllLog(lines[..|lines| - 1]);
    }
  }

  /** The flush sends the unfinished last line, unless it is empty. */
  lemma FlushSendsTheLastLine(lines: seq<string>)
    requires lines != []
    ensures var n := |lines| - 1;
            Flushed(EmittedAll(NEW_WRITER, lines[..n]).(buf := lines[n])) == EmittedAll(NEW_WRITER, lines)
  {
    hide Trimmed;
    var n := |lines| - 1;
    var w := EmittedAll(NEW_WRITER, lines[..n]);
    EmittedAllKeepsBuf(NEW_WRITER, lines[..n], "");
    BlankIsSilent(w);
    assert w.(buf := lines[n]).(buf := "") == w;
  }

  /**
  For every way of cutting a stream into writes followed by a flush, the forwarded lines are
  the trimmed non-blank lines of the whole stream in order, and LastLine is the last of them.
  */
  lemma ChunkingDoesNotMatter(chunks: seq<string>)
    ensures var w := Flushed(FedAll(NEW_WRITER, chunks));
            && w.log == VisibleLines(Split(Concat(chunks), '\n'))
            && w.lastLine == (if w.log == [] then "" else w.log[|w.log| - 1])
            && w.buf == ""
  {
    hide Split, VisibleLines, EmittedAll, Flushed, FedAll, Concat;
    var s := Concat(chunks);
    var lines := Split(s, '\n');
    FedInPieces(NEW_WRITER, chunks);
    assert NEW_WRITER.buf + s == s;
    FlushSendsTheLastLine(lines);
    EmittedAllLog(lines);
    EmittedAllKeepsBuf(NEW_WRITER, lines, "");
  }

  lemma BlankIsSilent(w: Writer)
    ensures Emitted(w, "") == w
  {
    assert Trimmed("") == "";
  }

  // ---------------------------------------------------------------- the code

  class ProcLogWriter {
    var buf: string
    var lastLine: string
    var log: seq<string>

    ghost function View(): Writer
      reads this
    {
      Writer(buf, lastLine, log)
    }

    constructor ()
      ensures View() == NEW_WRITER
    {
      buf, lastLine, log := "", "", [];
    }

    /** `Write`. */
    method Write(p: string) returns (n: nat)
      modifies this
      ensures n == |p| && View() == Fed(old(View()), p)
    {
      hide Trimmed, Split, IndexOf;
      buf := buf + p;
      ghost var all := Split(buf, '\n');
      ghost var w := old(View());
      ghost var done: seq<string> := [];
      while true
        invariant all == done + Split(buf, '\n')
        invariant View() == EmittedAll(w, done).(buf := buf)
        decreases |buf|
      {
        SplitStep(buf, '\n');
        var i := IndexOf(buf, '\n');
        if i == |buf| {
          assert buf[..i] == buf && all[..|all| - 1] == done;
          break;
        }
        var line := buf[..i];
        buf := buf[i + 1..];
        EmitLocked(line);
        assert (done + [line])[..|done|] == done;
        done := done + [line];
      }
      n := |p|;
    }

    /** `Flush`. */
    method Flush()
      modifies this
      ensures View() == Flushed(old(View()))
    {
      if buf != "" {
        var line := buf;
        buf := "";
        EmitLocked(line);
      }
    }

    /** `emitLocked`. */
    method EmitLocked(line: string)
      modifies this
      ensures View() == Emitted(old(View()), line)
    {
      var trimmed := Trimmed(line);
      if trimmed == "" {
        return;
      }
      lastLine := trimmed;
      log := log + [trimmed];
    }
  }
}
