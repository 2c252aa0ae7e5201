/** What any configuration text says, whether or not the printer would make it.

    The reference is a grammar of pieces and a meaning given by cutting lines and
    words out of the list of pieces.  Every text is such a list, possibly followed by
    something unfinished, and the tokenizer reads it as that meaning. */
module UciGrammar {
  import opened Base
  import opened Uci

  /** Inside double quotes: a character, an escaped one, or a backslash before a
      newline, which stands for nothing. */
  datatype Part = Raw(c: char) | Masked(c: char) | Splice

  datatype Piece =
    | Bare(c: char) | Escaped(c: char) | Join | Single(text: string) | Double(parts: seq<Part>)
    | Blank(c: char)
    | End(c: char) | Note(text: string)

  /** How a text may end after its last complete piece. */
  datatype Tail =
    | Nothing | Remark(text: string)
    | LoneBackslash | OpenSingle(text: string) | OpenDouble(parts: seq<Part>) | OpenEscape(parts: seq<Part>)

  predicate Lacks(s: string, c: char) { forall i :: 0 <= i < |s| ==> s[i] != c }

  predicate ProperPart(p: Part) {
    match p
    case Raw(c) => c != '"' && c != '\\'
    case Masked(c) => c != '\n'
    case Splice => true
  }

  predicate ProperParts(ps: seq<Part>) { forall i :: 0 <= i < |ps| ==> ProperPart(ps[i]) }

  predicate ProperPiece(p: Piece) {
    match p
    case Bare(c) => Plain(c)
    case Escaped(c) => c != '\n'
    case Join => true
    case Single(text) => Lacks(text, '\'')
    case Double(parts) => ProperParts(parts)
    case Blank(c) => c in {' ', '\t', '\r'}
    case End(c) => c in {'\n', ';'}
    case Note(text) => Lacks(text, '\n')
  }

  predicate Proper(ps: seq<Piece>) { forall i :: 0 <= i < |ps| ==> ProperPiece(ps[i]) }

  predicate ProperTail(t: Tail) {
    match t
    case Remark(text) => Lacks(text, '\n')
    case OpenSingle(text) => Lacks(text, '\'')
    case OpenDouble(parts) => ProperParts(parts)
    case OpenEscape(parts) => ProperParts(parts)
    case _ => true
  }

  // --------------------------------------------------------------- the text

  function PartText(p: Part): string {
    match p
    case Raw(c) => [c]
    case Masked(c) => ['\\', c]
    case Splice => "\\\n"
  }

  function PartsText(ps: seq<Part>): string { if ps == [] then "" else PartText(ps[0]) + PartsText(ps[1..]) }

  function PieceText(p: Piece): string {
    match p
    case Bare(c) => [c]
    case Escaped(c) => ['\\', c]
    case Join => "\\\n"
    case Single(text) => "'" + text + "'"
    case Double(parts) => "\"" + PartsText(parts) + "\""
    case Blank(c) => [c]
    case End(c) => [c]
    case Note(text) => "#" + text + "\n"
  }

  function Text(ps: seq<Piece>): string { if ps == [] then "" else PieceText(ps[0]) + Text(ps[1..]) }

  function TailText(t: Tail): string {
    match t
    case Nothing => ""
    case Remark(text) => "#" + text
    case LoneBackslash => "\\"
    case OpenSingle(text) => "'" + text
    case OpenDouble(parts) => "\"" + PartsText(parts)
    case OpenEscape(parts) => "\"" + PartsText(parts) + "\\"
  }

  // ------------------------------------------------------------- the meaning

  predicate InWord(p: Piece) { p.Bare? || p.Escaped? || p.Join? || p.Single? || p.Double? }
  predicate Stop(p: Piece) { p.End? || p.Note? }

  function PartsValue(ps: seq<Part>): string {
    if ps == [] then "" else (if ps[0].Splice? then "" else [ps[0].c]) + PartsValue(ps[1..])
  }

  function Value(p: Piece): string {
    match p
    case Bare(c) => [c]
    case Escaped(c) => [c]
    case Single(text) => text
    case Double(parts) => PartsValue(parts)
    case _ => ""
  }

  /** Adjacent fragments form one word. */
  function Concat(ps: seq<Piece>): string { if ps == [] then "" else Value(ps[0]) + Concat(ps[1..]) }

  function WordLen(ps: seq<Piece>): (k: nat)
    ensures k <= |ps|
  {
    if ps == [] || !InWord(ps[0]) then 0 else 1 + WordLen(ps[1..])
  }

  function Words(ps: seq<Piece>): seq<string>
    decreases |ps|
  {
    if ps == [] then []
    else if !InWord(ps[0]) then Words(ps[1..])
    else [Concat(ps[..WordLen(ps)])] + Words(ps[WordLen(ps)..])
  }

  function Lone(line: nat, words: seq<string>): seq<Command> { if words == [] then [] else [Command(line, words)] }

  /** The number of the line after a stop, `here` being the pieces between it and the
      stop before, which is on `line`. */
  function NextLine(line: nat, here: seq<Piece>, stop: Piece): nat { line + Newlines(Text(here + [stop])) }

  /** One command for every line that has words, with the number of the line it is on;
      `here` are the pieces since the last stop. */
  function Commands(ps: seq<Piece>, here: seq<Piece>, line: nat): seq<Command>
    decreases |ps|
  {
    if ps == [] then Lone(line, Words(here))
    else if Stop(ps[0]) then Lone(line, Words(here)) + Commands(ps[1..], [], NextLine(line, here, ps[0]))
    else Commands(ps[1..], here + [ps[0]], line)
  }

  /** The number of the line after the last stop. */
  function LastLine(ps: seq<Piece>, here: seq<Piece>, line: nat): nat
    decreases |ps|
  {
    if ps == [] then line
    else if Stop(ps[0]) then LastLine(ps[1..], [], NextLine(line, here, ps[0]))
    else LastLine(ps[1..], here + [ps[0]], line)
  }

  function Meaning(ps: seq<Piece>, t: Tail): Result<seq<Command>> {
    match t
    case Nothing => Ok(Commands(ps, [], 1))
    case Remark(_) => Ok(Commands(ps, [], 1))
    case LoneBackslash => Err(UnterminatedEscape(1 + Newlines(Text(ps))))
    case OpenSingle(_) => Err(UnterminatedQuote(LastLine(ps, [], 1), '\''))
    case OpenDouble(_) => Err(UnterminatedQuote(LastLine(ps, [], 1), '"'))
    case OpenEscape(parts) => Err(UnterminatedEscape(1 + Newlines(Text(ps)) + Newlines(PartsText(parts))))
  }

  predicate AllInWord(ps: seq<Piece>) { forall i :: 0 <= i < |ps| ==> InWord(ps[i]) }
  predicate NoStop(ps: seq<Piece>) { forall i :: 0 <= i < |ps| ==> !Stop(ps[i]) }

  lemma {:induction false} WordEnds(ps: seq<Piece>)
    ensures AllInWord(ps[..WordLen(ps)]) && (WordLen(ps) < |ps| ==> !InWord(ps[WordLen(ps)]))
    decreases |ps|
  {
    if ps != [] && InWord(ps[0]) {
      WordEnds(ps[1..]);
      assert ps[..WordLen(ps)] == [ps[0]] + ps[1..][..WordLen(ps[1..])];
    }
  }

  // -------------------------------------------------------- reading one piece

  lemma {:induction false} NewlinesCat(a: string, b: string)
    ensures Newlines(a + b) == Newlines(a) + Newlines(b)
    decreases |a|
  {
    if a == [] {
      assert a + b == b;
    } else {
      assert (a + b)[0] == a[0] && (a + b)[1..] == a[1..] + b;
      NewlinesCat(a[1..], b);
    }
  }

  lemma {:induction false} NewlinesOne(c: char)
    ensures Newlines([c]) == if c == '\n' then 1 else 0
  {
    assert [c][1..] == [] && Newlines([]) == 0;
  }

  lemma {:induction false} NoNewlines(s: string)
    requires Lacks(s, '\n')
    ensures Newlines(s) == 0
  {
    if s != [] { NoNewlines(s[1..]); }
  }

  /** The token grows by `v` and the line count by `n`. */
  function Gain(st: Scanner, v: string, n: nat): Scanner {
    st.(token := Some(st.Begin().token.value + v), line := st.line + n)
  }

  lemma {:induction false} GainTwice(st: Scanner, u: string, v: string, m: nat, n: nat)
    ensures Gain(Gain(st, u, m), v, n) == Gain(st, u + v, m + n)
  {
    var t := st.Begin().token.value;
    assert t + u + v == t + (u + v);
  }

  lemma {:induction false} GainNothing(st: Scanner)
    requires st.token.Some?
    ensures Gain(st, "", 0) == st
  {
    assert st.token.value + "" == st.token.value;
  }

  lemma {:induction false} SinglePrefix(text: string, rest: string, st: Scanner)
    requires Lacks(text, '\'') && st.token.Some?
    ensures ScanQuoted('\'', text + rest, st) == ScanQuoted('\'', rest, Gain(st, text, Newlines(text)))
    decreases |text|
  {
    if text == [] {
      assert text + rest == rest;
      GainNothing(st);
    } else {
      var c, tail := text[0], text[1..];
      assert (text + rest)[0] == c && (text + rest)[1..] == tail + rest;
      var st' := st.PushCounting(c);
      SinglePrefix(tail, rest, st');
      GainTwice(st, [c], tail, if c == '\n' then 1 else 0, Newlines(tail));
      assert [c] + tail == text;
    }
  }

  function PartLines(p: Part): nat { Newlines(PartText(p)) }

  function PartValue(p: Part): string { if p.Splice? then "" else [p.c] }

  lemma {:induction false} PartStep(p: Part, rest: string, st: Scanner)
    requires ProperPart(p) && st.token.Some?
    ensures ScanQuoted('"', PartText(p) + rest, st) == ScanQuoted('"', rest, Gain(st, PartValue(p), PartLines(p)))
  {
    var s := PartText(p) + rest;
    match p {
      case Raw(c) =>
        assert s[0] == c && s[1..] == rest;
        NewlinesOne(c);
      case Masked(c) =>
        assert s[0] == '\\' && s[1] == c && s[2..] == rest;
        NewlinesCat("\\", [c]);
        NewlinesOne('\\');
        NewlinesOne(c);
        assert ['\\', c] == "\\" + [c];
      case Splice =>
        assert s[0] == '\\' && s[1] == '\n' && s[2..] == rest;
        NewlinesCat("\\", "\n");
        NewlinesOne('\\');
        NewlinesOne('\n');
        assert "\\\n" == "\\" + "\n";
        assert st.token.value + "" == st.token.value;
    }
  }

  lemma {:induction false} DoublePrefix(parts: seq<Part>, rest: string, st: Scanner)
    requires ProperParts(parts) && st.token.Some?
    ensures ScanQuoted('"', PartsText(parts) + rest, st) ==
            ScanQuoted('"', rest, Gain(st, PartsValue(parts), Newlines(PartsText(parts))))
    decreases |parts|
  {
    if parts == [] {
      assert PartsText(parts) + rest == rest;
      GainNothing(st);
    } else {
      var p, tail := parts[0], parts[1..];
      assert PartsText(parts) + rest == PartText(p) + (PartsText(tail) + rest);
      PartStep(p, PartsText(tail) + rest, st);
      DoublePrefix(tail, rest, Gain(st, PartValue(p), PartLines(p)));
      GainTwice(st, PartValue(p), PartsValue(tail), PartLines(p), Newlines(PartsText(tail)));
      NewlinesCat(PartText(p), PartsText(tail));
    }
  }

  lemma {:induction false} SkipNote(text: string, rest: string)
    requires Lacks(text, '\n') && (rest == [] || rest[0] == '\n')
    ensures SkipComment(text + rest) == rest
  {
    if text == [] {
      assert text + rest == rest;
    } else {
      assert (text + rest)[0] == text[0] && (text + rest)[1..] == text[1..] + rest;
      SkipNote(text[1..], rest);
    }
  }

  function Stopped(st: Scanner, n: nat): Scanner {
    st.FinishCommand().(line := st.line + n, commandLine := st.line + n)
  }

  /** What a piece does to the scanner. */
  function Feed(p: Piece, st: Scanner): Scanner {
    if InWord(p) then Gain(st, Value(p), Newlines(PieceText(p)))
    else if p.Blank? then st.FinishToken()
    else Stopped(st, Newlines(PieceText(p)))
  }

  lemma {:induction false} StepSingle(text: string, rest: string, st: Scanner)
    requires Lacks(text, '\'')
    ensures Scan(PieceText(Single(text)) + rest, st) == Scan(rest, Feed(Single(text), st))
  {
    var s, q := "'" + text + "'" + rest, "'" + rest;
    assert s[0] == '\'' && s[1..] == text + q && q[0] == '\'' && q[1..] == rest;
    SinglePrefix(text, q, st.Begin());
    QuotedLines('\'', text);
    assert [ '\'' ] + text + [ '\'' ] == PieceText(Single(text));
  }

  lemma {:induction false} StepDouble(parts: seq<Part>, rest: string, st: Scanner)
    requires ProperParts(parts)
    ensures Scan(PieceText(Double(parts)) + rest, st) == Scan(rest, Feed(Double(parts), st))
  {
    var s, q := "\"" + PartsText(parts) + "\"" + rest, "\"" + rest;
    assert s[0] == '"' && s[1..] == PartsText(parts) + q && q[0] == '"' && q[1..] == rest;
    DoublePrefix(parts, q, st.Begin());
    QuotedLines('"', PartsText(parts));
    assert ['"'] + PartsText(parts) + ['"'] == PieceText(Double(parts));
  }

  lemma {:induction false} QuotedLines(q: char, text: string)
    requires q != '\n'
    ensures Newlines([q] + text + [q]) == Newlines(text)
  {
    NewlinesOne(q);
    NewlinesCat([q] + text, [q]);
    NewlinesCat([q], text);
  }

  lemma {:induction false} StepNote(text: string, rest: string, st: Scanner)
    requires Lacks(text, '\n')
    ensures Scan(PieceText(Note(text)) + rest, st) == Scan(rest, Feed(Note(text), st))
  {
    var s, body, eol := "#" + text + "\n" + rest, "#" + text, "\n" + rest;
    assert s == body + eol && s[0] == '#' && eol[0] == '\n' && eol[1..] == rest;
    SkipNote(body, eol);
    NoNewlines(body);
    NewlinesCat(body, "\n");
    NewlinesOne('\n');
    assert st.FinishCommand().FinishCommand() == st.FinishCommand();
  }

  lemma {:induction false} PieceStep(p: Piece, rest: string, st: Scanner)
    requires ProperPiece(p)
    ensures Scan(PieceText(p) + rest, st) == Scan(rest, Feed(p, st))
  {
    var s := PieceText(p) + rest;
    match p {
      case Single(text) => StepSingle(text, rest, st);
      case Double(parts) => StepDouble(parts, rest, st);
      case Note(text) => StepNote(text, rest, st);
      case Bare(c) =>
        assert s[0] == c && s[1..] == rest;
        NewlinesOne(c);
      case Escaped(c) =>
        assert s[0] == '\\' && s[1] == c && s[2..] == rest;
        NewlinesCat("\\", [c]);
        NewlinesOne('\\');
        NewlinesOne(c);
        assert ['\\', c] == "\\" + [c];
      case Join =>
        assert s[0] == '\\' && s[1] == '\n' && s[2..] == rest;
        NewlinesCat("\\", "\n");
        NewlinesOne('\\');
        NewlinesOne('\n');
        assert "\\\n" == "\\" + "\n";
        assert st.Begin().token.value + "" == st.Begin().token.value;
      case Blank(c) => assert s[0] == c && s[1..] == rest;
      case End(c) =>
        assert s[0] == c && s[1..] == rest;
        NewlinesOne(c);
    }
  }

  // -------------------------------------------------------- reading all pieces

  function FeedAll(ps: seq<Piece>, st: Scanner): Scanner
    decreases |ps|
  {
    if ps == [] then st else FeedAll(ps[1..], Feed(ps[0], st))
  }

  lemma {:induction false} PiecesStep(ps: seq<Piece>, rest: string, st: Scanner)
    requires Proper(ps)
    ensures Scan(Text(ps) + rest, st) == Scan(rest, FeedAll(ps, st))
    decreases |ps|
  {
    if ps == [] {
      assert Text(ps) + rest == rest;
    } else {
      assert Text(ps) + rest == PieceText(ps[0]) + (Text(ps[1..]) + rest);
      PieceStep(ps[0], Text(ps[1..]) + rest, st);
      PiecesStep(ps[1..], rest, Feed(ps[0], st));
    }
  }

  lemma {:induction false} FeedCat(a: seq<Piece>, b: seq<Piece>, st: Scanner)
    ensures FeedAll(a + b, st) == FeedAll(b, FeedAll(a, st))
    decreases |a|
  {
    if a == [] {
      assert a + b == b;
    } else {
      assert (a + b)[0] == a[0] && (a + b)[1..] == a[1..] + b;
      FeedCat(a[1..], b, Feed(a[0], st));
    }
  }

  /** Every newline consumed is counted. */
  lemma {:induction false} LinesFed(ps: seq<Piece>, st: Scanner)
    requires Proper(ps)
    ensures FeedAll(ps, st).line == st.line + Newlines(Text(ps))
    decreases |ps|
  {
    if ps != [] {
      LinesFed(ps[1..], Feed(ps[0], st));
      NewlinesCat(PieceText(ps[0]), Text(ps[1..]));
      if ps[0].Blank? { NewlinesOne(ps[0].c); }
    }
  }

  lemma {:induction false} ChunkFed(ps: seq<Piece>, st: Scanner)
    requires ps != [] && AllInWord(ps)
    ensures FeedAll(ps, st) == Gain(st, Concat(ps), Newlines(Text(ps)))
    decreases |ps|
  {
    var p, tail := ps[0], ps[1..];
    var v, n := Value(p), Newlines(PieceText(p));
    NewlinesCat(PieceText(p), Text(tail));
    if tail == [] {
      assert Concat(tail) == "" && v + "" == v && Newlines("") == 0;
    } else {
      ChunkFed(tail, Gain(st, v, n));
      GainTwice(st, v, Concat(tail), n, Newlines(Text(tail)));
    }
  }

  /** A line's pieces leave its words in the fields. */
  lemma {:induction false} WordsFed(ps: seq<Piece>, st: Scanner)
    requires st.token.None? && NoStop(ps)
    ensures var to := FeedAll(ps, st);
            && to.FinishToken().fields == st.fields + Words(ps)
            && to.commands == st.commands && to.commandLine == st.commandLine
    decreases |ps|
  {
    if ps == [] {
      assert st.fields + [] == st.fields;
    } else if !InWord(ps[0]) {
      WordsFed(ps[1..], st);
    } else {
      var k := WordLen(ps);
      var w, more := ps[..k], ps[k..];
      WordEnds(ps);
      assert ps == w + more;
      FeedCat(w, more, st);
      ChunkFed(w, st);
      assert "" + Concat(w) == Concat(w);
      WordThenBlank(more, FeedAll(w, st), Concat(w));
    }
  }

  /** A finished word, then either nothing or a blank and the rest. */
  lemma {:induction false} WordThenBlank(more: seq<Piece>, mid: Scanner, w: string)
    requires mid.token == Some(w) && (more == [] || more[0].Blank?) && NoStop(more)
    ensures var to := FeedAll(more, mid);
            && to.FinishToken().fields == mid.fields + ([w] + Words(more))
            && to.commands == mid.commands && to.commandLine == mid.commandLine
    decreases |more|, 1
  {
    if more == [] {
      assert [w] + [] == [w];
    } else {
      var next := mid.FinishToken();
      WordsFed(more[1..], next);
      assert next.fields + Words(more[1..]) == mid.fields + ([w] + Words(more[1..]));
    }
  }

  lemma {:induction false} LineFed(ps: seq<Piece>, st: Scanner)
    requires NoStop(ps) && AtLineStart(st)
    ensures FeedAll(ps, st).FinishCommand().commands == st.commands + Lone(st.commandLine, Words(ps))
    ensures FeedAll(ps, st).commandLine == st.commandLine
  {
    WordsFed(ps, st);
    assert st.fields + Words(ps) == Words(ps);
    assert st.commands + [] == st.commands;
  }

  /** A line and its stop. */
  lemma {:induction false} StopFed(ps: seq<Piece>, stop: Piece, st: Scanner)
    requires NoStop(ps) && Stop(stop) && AtLineStart(st) && Proper(ps) && ProperPiece(stop)
    ensures var to := FeedAll(ps + [stop], st);
            && to.commands == st.commands + Lone(st.commandLine, Words(ps)) && AtLineStart(to)
            && to.commandLine == to.line == st.line + Newlines(Text(ps + [stop]))
  {
    LineFed(ps, st);
    LinesFed(ps + [stop], st);
    FeedCat(ps, [stop], st);
    assert [stop][1..] == [];
    assert FeedAll([stop], FeedAll(ps, st)) == Feed(stop, FeedAll(ps, st));
  }

  /** Fed the pieces of the current line and then the rest, a scanner that was at the
      start of that line ends with all the commands. */
  ghost predicate Yields(ps: seq<Piece>, here: seq<Piece>, st: Scanner) {
    var to := FeedAll(ps, FeedAll(here, st));
    && to.FinishCommand().commands == st.commands + Commands(ps, here, st.line)
    && to.commandLine == LastLine(ps, here, st.line)
  }

  lemma {:induction false} YieldsStop(stop: Piece, rest: seq<Piece>, here: seq<Piece>, st: Scanner)
    requires NoStop(here) && Stop(stop) && AtLineStart(st) && Proper(here) && ProperPiece(stop)
             && st.commandLine == st.line
    ensures var next := FeedAll(here + [stop], st);
            && AtLineStart(next) && next.commandLine == next.line
            && (Yields(rest, [], next) ==> Yields([stop] + rest, here, st))
  {
    var next := FeedAll(here + [stop], st);
    StopFed(here, stop, st);
    FeedCat(here, [stop], st);
    FeedCat([stop], rest, FeedAll(here, st));
    assert ([stop] + rest)[1..] == rest;
    Assoc(st.commands, Lone(st.line, Words(here)), Commands(rest, [], next.line));
  }

  lemma {:induction false} YieldsMore(p: Piece, rest: seq<Piece>, here: seq<Piece>, st: Scanner)
    requires !Stop(p) && Yields(rest, here + [p], st)
    ensures Yields([p] + rest, here, st)
  {
    FeedCat(here, [p], st);
    FeedCat([p], rest, FeedAll(here, st));
    assert ([p] + rest)[1..] == rest;
  }

  lemma {:induction false} CommandsFed(ps: seq<Piece>, here: seq<Piece>, st: Scanner)
    requires Proper(ps) && Proper(here) && NoStop(here) && AtLineStart(st) && st.commandLine == st.line
    ensures Yields(ps, here, st)
    decreases |ps|
  {
    if ps == [] {
      LineFed(here, st);
    } else {
      var p, rest := ps[0], ps[1..];
      assert ps == [p] + rest;
      if Stop(p) {
        YieldsStop(p, rest, here, st);
        CommandsFed(rest, [], FeedAll(here + [p], st));
      } else {
        CommandsFed(rest, here + [p], st);
        YieldsMore(p, rest, here, st);
      }
    }
  }

  lemma {:induction false} Assoc<T>(a: seq<T>, b: seq<T>, c: seq<T>)
    ensures a + b + c == a + (b + c)
  {}

  /** What a scanner makes of a tail. */
  function Taken(t: Tail, st: Scanner): Result<seq<Command>> {
    match t
    case Nothing => Ok(st.FinishCommand().commands)
    case Remark(_) => Ok(st.FinishCommand().commands)
    case LoneBackslash => Err(UnterminatedEscape(st.line))
    case OpenSingle(_) => Err(UnterminatedQuote(st.commandLine, '\''))
    case OpenDouble(_) => Err(UnterminatedQuote(st.commandLine, '"'))
    case OpenEscape(parts) => Err(UnterminatedEscape(st.line + Newlines(PartsText(parts))))
  }

  lemma {:induction false} TailStep(t: Tail, st: Scanner)
    requires ProperTail(t)
    ensures Scan(TailText(t), st) == Taken(t, st)
  {
    var tail := TailText(t);
    match t {
      case Nothing =>
      case Remark(text) =>
        assert tail + "" == tail;
        SkipNote(tail, "");
        assert st.FinishCommand().FinishCommand() == st.FinishCommand();
      case LoneBackslash =>
      case OpenSingle(text) =>
        assert tail[1..] == text && text + "" == text;
        SinglePrefix(text, "", st.Begin());
      case OpenDouble(parts) =>
        assert tail[1..] == PartsText(parts) && PartsText(parts) + "" == PartsText(parts);
        DoublePrefix(parts, "", st.Begin());
      case OpenEscape(parts) =>
        assert tail[1..] == PartsText(parts) + "\\";
        DoublePrefix(parts, "\\", st.Begin());
    }
  }

  /** A text of pieces and a tail reads as its meaning. */
  lemma {:induction false} Reads(ps: seq<Piece>, t: Tail)
    requires Proper(ps) && ProperTail(t)
    ensures Scan(Text(ps) + TailText(t), START) == Meaning(ps, t)
  {
    PiecesStep(ps, TailText(t), START);
    TailStep(t, FeedAll(ps, START));
    StartYields(ps);
  }

  lemma {:induction false} StartYields(ps: seq<Piece>)
    requires Proper(ps)
    ensures var st := FeedAll(ps, START);
            && st.FinishCommand().commands == Commands(ps, [], 1) && st.commandLine == LastLine(ps, [], 1)
            && st.line == 1 + Newlines(Text(ps))
  {
    CommandsFed(ps, [], START);
    LinesFed(ps, START);
    Emptily(Commands(ps, [], 1));
  }

  lemma {:induction false} Emptily<T>(a: seq<T>)
    ensures [] + a == a && a + [] == a
  {}

  // ------------------------------------------------- every text is of that form

  lemma {:induction false} CutSingle(s: string) returns (text: string, closed: bool, rest: string)
    ensures Lacks(text, '\'') && s == text + if closed then "'" + rest else ""
    ensures closed ==> |rest| < |s|
    decreases |s|
  {
    if s == [] {
      text, closed, rest := "", false, "";
    } else if s[0] == '\'' {
      text, closed, rest := "", true, s[1..];
      assert s == "'" + rest;
    } else {
      text, closed, rest := CutSingle(s[1..]);
      text := [s[0]] + text;
      assert s == [s[0]] + s[1..];
    }
  }

  datatype Cut = Closed(rest: string) | Open | Dangling

  function CutText(c: Cut): string {
    match c
    case Closed(rest) => "\"" + rest
    case Open => ""
    case Dangling => "\\"
  }

  lemma {:induction false} PartsCons(p: Part, parts: seq<Part>, rest: string)
    ensures PartsText([p] + parts) + rest == PartText(p) + (PartsText(parts) + rest)
    ensures ProperPart(p) && ProperParts(parts) ==> ProperParts([p] + parts)
  {
    assert ([p] + parts)[1..] == parts;
  }

  lemma {:induction false} CutDouble(s: string) returns (parts: seq<Part>, cut: Cut)
    ensures ProperParts(parts) && s == PartsText(parts) + CutText(cut)
    ensures cut.Closed? ==> |cut.rest| < |s|
    decreases |s|
  {
    if s == [] {
      parts, cut := [], Open;
    } else if s[0] == '"' {
      parts, cut := [], Closed(s[1..]);
      assert s == "\"" + s[1..];
    } else if s == "\\" {
      parts, cut := [], Dangling;
    } else {
      var p := if s[0] != '\\' then Raw(s[0]) else if s[1] == '\n' then Splice else Masked(s[1]);
      var n := |PartText(p)|;
      assert s == PartText(p) + s[n..];
      var more;
      more, cut := CutDouble(s[n..]);
      PartsCons(p, more, CutText(cut));
      parts := [p] + more;
    }
  }

  lemma {:induction false} PiecesCons(p: Piece, ps: seq<Piece>, tail: string)
    requires ProperPiece(p) && Proper(ps)
    ensures Proper([p] + ps) && Text([p] + ps) + tail == PieceText(p) + (Text(ps) + tail)
  {
    assert ([p] + ps)[1..] == ps;
    Assoc(PieceText(p), Text(ps), tail);
  }

  lemma {:induction false} CutNote(s: string) returns (text: string, closed: bool, rest: string)
    ensures Lacks(text, '\n') && s == text + if closed then "\n" + rest else ""
    ensures closed ==> |rest| < |s|
    decreases |s|
  {
    if s == [] {
      text, closed, rest := "", false, "";
    } else if s[0] == '\n' {
      text, closed, rest := "", true, s[1..];
      assert s == "\n" + rest;
    } else {
      text, closed, rest := CutNote(s[1..]);
      text := [s[0]] + text;
      assert s == [s[0]] + s[1..];
    }
  }

  /** Cutting the first piece off a text, or finding that all of it is a tail. */
  datatype First = First(p: Piece, rest: string) | Only(t: Tail)

  predicate Cuts(s: string, f: First) {
    match f
    case First(p, rest) => ProperPiece(p) && s == PieceText(p) + rest && |rest| < |s|
    case Only(t) => ProperTail(t) && s == TailText(t)
  }

  lemma {:induction false} Enclosed(q: string, body: string, rest: string)
    ensures q + (body + (q + rest)) == q + body + q + rest
  {}

  lemma {:induction false} FirstNote(s: string) returns (f: First)
    requires s != [] && s[0] == '#'
    ensures Cuts(s, f)
  {
    var text, closed, rest := CutNote(s[1..]);
    assert s == "#" + s[1..];
    if closed {
      f := First(Note(text), rest);
      assert s == "#" + text + "\n" + rest;
    } else {
      f := Only(Remark(text));
    }
  }

  lemma {:induction false} FirstSingle(s: string) returns (f: First)
    requires s != [] && s[0] == '\''
    ensures Cuts(s, f)
  {
    var text, closed, rest := CutSingle(s[1..]);
    assert s == "'" + s[1..];
    if closed {
      f := First(Single(text), rest);
      assert s == "'" + text + "'" + rest;
    } else {
      f := Only(OpenSingle(text));
    }
  }

  lemma {:induction false} FirstDouble(s: string) returns (f: First)
    requires s != [] && s[0] == '"'
    ensures Cuts(s, f)
  {
    var parts, cut := CutDouble(s[1..]);
    assert s == "\"" + s[1..];
    match cut {
      case Closed(rest) =>
        f := First(Double(parts), rest);
        Enclosed("\"", PartsText(parts), rest);
      case Open => f := Only(OpenDouble(parts));
      case Dangling =>
        f := Only(OpenEscape(parts));
        Assoc("\"", PartsText(parts), "\\");
    }
  }

  lemma {:induction false} FirstOther(s: string) returns (f: First)
    requires s == [] || s[0] !in {'#', '\'', '"'}
    ensures Cuts(s, f)
  {
    if s == [] {
      f := Only(Nothing);
    } else if s == "\\" {
      f := Only(LoneBackslash);
    } else {
      var c := s[0];
      var p := if c == '\\' then (if s[1] == '\n' then Join else Escaped(s[1]))
               else if c in {' ', '\t', '\r'} then Blank(c)
               else if c in {'\n', ';'} then End(c)
               else Bare(c);
      f := First(p, s[|PieceText(p)|..]);
      assert s == PieceText(p) + s[|PieceText(p)|..];
    }
  }

  lemma {:induction false} Decompose(s: string) returns (ps: seq<Piece>, t: Tail)
    ensures Proper(ps) && ProperTail(t) && s == Text(ps) + TailText(t)
    decreases |s|
  {
    var f: First;
    if s != [] && s[0] == '#' {
      f := FirstNote(s);
    } else if s != [] && s[0] == '\'' {
      f := FirstSingle(s);
    } else if s != [] && s[0] == '"' {
      f := FirstDouble(s);
    } else {
      f := FirstOther(s);
    }
    match f {
      case Only(tail) =>
        ps, t := [], tail;
        assert Text(ps) + s == s;
      case First(p, rest) =>
        var more;
        more, t := Decompose(rest);
        PiecesCons(p, more, TailText(t));
        ps := [p] + more;
    }
  }

  /** The tokenizer on every text: it is a list of pieces and a tail, and it reads as
      what they mean, which is an error exactly when the tail is unfinished. */
  lemma TokenizesExactly(s: string) returns (ps: seq<Piece>, t: Tail)
    ensures Proper(ps) && ProperTail(t) && s == Text(ps) + TailText(t)
    ensures Scan(s, START) == Meaning(ps, t)
    ensures Scan(s, START).Ok? <==> t.Nothing? || t.Remark?
  {
    ps, t := Decompose(s);
    Reads(ps, t);
  }

  // -------------------------------------------------------------------- laws

  /** After any complete pieces a comment up to the end of its line is as if absent. */
  lemma CommentsIgnored(ps: seq<Piece>, note: string, rest: string)
    requires Proper(ps) && Lacks(note, '\n')
    ensures Scan(Text(ps) + ("#" + note + "\n" + rest), START) == Scan(Text(ps) + ("\n" + rest), START)
  {
    var st := FeedAll(ps, START);
    PiecesStep(ps, "#" + note + "\n" + rest, START);
    PiecesStep(ps, "\n" + rest, START);
    PieceStep(Note(note), rest, st);
    PieceStep(End('\n'), rest, st);
    NoNewlines("#" + note);
    NewlinesCat("#" + note, "\n");
  }

  /** A value in double quotes, its quotes and backslashes escaped. */
  function Masking(v: string): seq<Part> {
    if v == [] then [] else [if v[0] == '"' || v[0] == '\\' then Masked(v[0]) else Raw(v[0])] + Masking(v[1..])
  }

  lemma {:induction false} MaskingReads(v: string)
    ensures ProperParts(Masking(v)) && PartsValue(Masking(v)) == v
  {
    if v != [] {
      MaskingReads(v[1..]);
      assert Masking(v)[1..] == Masking(v[1..]);
      assert v == [v[0]] + v[1..];
    }
  }

  /** Any value written so reads back as itself, wherever a word may stand. */
  lemma DoubleQuotesReadBack(v: string, rest: string, st: Scanner)
    ensures Scan(PieceText(Double(Masking(v))) + rest, st) ==
            Scan(rest, Gain(st, v, Newlines(PieceText(Double(Masking(v))))))
  {
    MaskingReads(v);
    PieceStep(Double(Masking(v)), rest, st);
  }

  /** A backslash before a newline joins two fragments into one word. */
  lemma JoinsLines(a: string, b: string)
    requires Word(a) && Word(b)
    ensures Scan(a + "\\\n" + b, START) == Ok([Command(1, [a + b])])
  {
    var st := PushAll(START, a);
    assert a + "\\\n" + b == a + ("\\\n" + b) && PieceText(Join) + b == "\\\n" + b && b + "" == b;
    ScanWord(a, "\\\n" + b, START);
    PieceStep(Join, b, st);
    ScanWord(b, "", Feed(Join, st));
    var to := PushAll(Feed(Join, st), b);
    Emptily(a);
    assert to.token == Some(a + b) && to.fields == [] && to.commands == [] && to.commandLine == 1;
    var done := to.FinishCommand();
    assert Scan("", to) == Ok(done.commands);
    Emptily([a + b]);
    Emptily([Command(1, [a + b])]);
  }

  /** Alike but for line numbers. */
  predicate Alike(a: Scanner, b: Scanner) {
    Fields(a.commands) == Fields(b.commands) && a.fields == b.fields && a.token == b.token
  }

  lemma {:induction false} FinishAlike(a: Scanner, b: Scanner)
    requires Alike(a, b)
    ensures Alike(a.FinishCommand(), b.FinishCommand()) && Alike(a.FinishToken(), b.FinishToken())
  {
    var f := a.FinishToken().fields;
    FieldsSnoc(a.commands, Command(a.commandLine, f));
    FieldsSnoc(b.commands, Command(b.commandLine, f));
  }

  lemma {:induction false} FieldsSnoc(cs: seq<Command>, c: Command)
    ensures Fields(cs + [c]) == Fields(cs) + [c.fields]
  {}

  lemma {:induction false} FeedAlike(ps: seq<Piece>, a: Scanner, b: Scanner)
    requires Alike(a, b)
    ensures Alike(FeedAll(ps, a), FeedAll(ps, b))
    decreases |ps|
  {
    if ps != [] {
      FinishAlike(a, b);
      FeedAlike(ps[1..], Feed(ps[0], a), Feed(ps[0], b));
    }
  }

  /** A semicolon ends a command like a newline does: only line numbers differ. */
  lemma SemicolonEnds(ps: seq<Piece>, rest: string)
    requires Proper(ps)
    ensures var a, b := Scan(Text(ps) + (";" + rest), START), Scan(Text(ps) + ("\n" + rest), START);
            (a.Ok? <==> b.Ok?) && (a.Ok? ==> Fields(a.value) == Fields(b.value))
  {
    var qs, t := Decompose(rest);
    var st := FeedAll(ps, START);
    PiecesStep(ps, ";" + rest, START);
    PiecesStep(ps, "\n" + rest, START);
    PieceStep(End(';'), rest, st);
    PieceStep(End('\n'), rest, st);
    var a, b := Feed(End(';'), st), Feed(End('\n'), st);
    PiecesStep(qs, TailText(t), a);
    PiecesStep(qs, TailText(t), b);
    TailStep(t, FeedAll(qs, a));
    TailStep(t, FeedAll(qs, b));
    FeedAlike(qs, a, b);
    FinishAlike(FeedAll(qs, a), FeedAll(qs, b));
  }
}
