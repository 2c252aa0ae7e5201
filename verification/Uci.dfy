/** The UCI configuration format: tokenizer, parser and printer.

    Strings are sequences of characters; the code only ever compares a byte with
    a handful of ASCII characters or orders bytes, so byte strings are the
    instances whose characters are below 256. */
module Uci {
  import opened Base
  import opened ByteOrder

  datatype Section = Section(typ: string, name: string, options: map<string, string>, lists: map<string, seq<string>>)

  datatype Error =
    | UnterminatedQuote(line: nat, quote: char)
    | UnterminatedEscape(line: nat)
    | BadCommand(line: nat, issue: Issue)

  datatype Issue = MalformedConfig | OutsideSection | Malformed | UnknownKeyword

  datatype Result<+T> = Ok(value: T) | Err(error: Error)

  // --------------------------------------------------------------- tokenizer

  datatype Command = Command(line: nat, fields: seq<string>)

  /** Everything tokenizeUCI has accumulated; `token` is None between tokens. */
  datatype Scanner = Scanner(commands: seq<Command>, fields: seq<string>, token: Option<string>, line: nat,
      commandLine: nat) {
    function FinishToken(): Scanner {
      if token.Some? then this.(fields := fields + [token.value], token := None) else this
    }

    function FinishCommand(): Scanner {
      var s := FinishToken();
      if s.fields != [] then s.(commands := s.commands + [Command(s.commandLine, s.fields)], fields := []) else s
    }

    function Begin(): Scanner {
      if token.Some? then this else this.(token := Some(""))
    }

    /** Appends a character to the token, starting one if necessary. */
    function Push(c: char): Scanner {
      this.(token := Some(Begin().token.value + [c]))
    }

    function Newline(): Scanner { this.(line := line + 1) }

    function PushCounting(c: char): Scanner {
      if c == '\n' then Push(c).Newline() else Push(c)
    }
  }

  const START := Scanner([], [], None, 1, 1)

  function SkipComment(s: string): (r: string)
    ensures |r| <= |s|
    ensures s != [] && s[0] != '\n' ==> |r| < |s|
  {
    if s == [] || s[0] == '\n' then s else SkipComment(s[1..])
  }

  function Scan(s: string, st: Scanner): Result<seq<Command>>
    decreases |s|
  {
    if s == [] then Ok(st.FinishCommand().commands)
    else
      var c := s[0];
      if c == ' ' || c == '\t' || c == '\r' then Scan(s[1..], st.FinishToken())
      else if c == '\n' || c == ';' then
        var st' := if c == '\n' then st.FinishCommand().Newline() else st.FinishCommand();
        Scan(s[1..], st'.(commandLine := st'.line))
      else if c == '#' then Scan(SkipComment(s), st.FinishCommand())
      else if c == '\'' || c == '"' then ScanQuoted(c, s[1..], st.Begin())
      else if c == '\\' then
        if |s| == 1 then Err(UnterminatedEscape(st.line))
        else if s[1] == '\n' then Scan(s[2..], st.Begin().Newline())
        else Scan(s[2..], st.Push(s[1]))
      else Scan(s[1..], st.Push(c))
  }

  function ScanQuoted(quote: char, s: string, st: Scanner): Result<seq<Command>>
    decreases |s|
  {
    if s == [] then Err(UnterminatedQuote(st.commandLine, quote))
    else if s[0] == quote then Scan(s[1..], st)
    else if s[0] == '\\' && quote == '"' then
      if |s| == 1 then Err(UnterminatedEscape(st.line))
      else if s[1] == '\n' then ScanQuoted(quote, s[2..], st.Newline())
      else ScanQuoted(quote, s[2..], st.Push(s[1]))
    else ScanQuoted(quote, s[1..], st.PushCounting(s[0]))
  }

  // ------------------------------------------------------------------ parser

  datatype Applied = Next(doc: seq<Section>) | Bad(issue: Issue)

  /** The effect of one command; the current section is the last one. */
  function ApplyCommand(f: seq<string>, doc: seq<Section>): Applied {
    if f == [] then Bad(UnknownKeyword)
    else if f[0] == "config" then
      if |f| < 2 || |f| > 3 then Bad(MalformedConfig)
      else Next(doc + [Section(f[1], if |f| == 3 then f[2] else "", map[], map[])])
    else if f[0] == "option" || f[0] == "list" then
      if doc == [] then Bad(OutsideSection)
      else if |f| != 3 then Bad(Malformed)
      else
        var cur := doc[|doc| - 1];
        Next(doc[|doc| - 1 := if f[0] == "option" then AddOption(cur, f[1], f[2]) else AddToList(cur, f[1], f[2])])
    else Bad(UnknownKeyword)
  }

  /** ParseUCI's loop over the commands. */
  function Interpret(cmds: seq<Command>, doc: seq<Section>): Result<seq<Section>>
    decreases |cmds|
  {
    if cmds == [] then Ok(doc)
    else match ApplyCommand(cmds[0].fields, doc)
      case Bad(issue) => Err(BadCommand(cmds[0].line, issue))
      case Next(doc') => Interpret(cmds[1..], doc')
  }

  function AddOption(s: Section, key: string, val: string): Section { s.(options := s.options[key := val]) }

  function AddToList(s: Section, key: string, val: string): Section {
    s.(lists := s.lists[key := (if key in s.lists then s.lists[key] else []) + [val]])
  }

  function Parse(src: string): Result<seq<Section>> {
    match Scan(src, START)
    case Err(e) => Err(e)
    case Ok(cmds) => Interpret(cmds, [])
  }

  // ----------------------------------------------------------------- printer

  function Escape(s: string): string {
    if s == [] then []
    else (if s[0] == '\'' then "'\\''" else [s[0]]) + Escape(s[1..])
  }

  function Line(keyword: string, word: string, val: string): string {
    keyword + " " + word + " '" + Escape(val) + "'\n"
  }

  ghost function OptionLines(ks: seq<string>, m: map<string, string>): string
    requires forall k :: k in ks ==> k in m
  {
    if ks == [] then "" else "\t" + Line("option", ks[0], m[ks[0]]) + OptionLines(ks[1..], m)
  }

  ghost function ValueLines(key: string, vs: seq<string>): string {
    if vs == [] then "" else "\t" + Line("list", key, vs[0]) + ValueLines(key, vs[1..])
  }

  ghost function ListLines(ks: seq<string>, m: map<string, seq<string>>): string
    requires forall k :: k in ks ==> k in m
  {
    if ks == [] then "" else ValueLines(ks[0], m[ks[0]]) + ListLines(ks[1..], m)
  }

  ghost function PrintSection(s: Section): string {
    Line("config", s.typ, s.name) + OptionLines(Sorted(s.options.Keys), s.options)
        + ListLines(Sorted(s.lists.Keys), s.lists) + "\n"
  }

  ghost function Print(doc: seq<Section>): string {
    if doc == [] then "" else PrintSection(doc[0]) + Print(doc[1..])
  }

  // ------------------------------------------------- what the printer undoes

  predicate Plain(c: char) { c !in {' ', '\t', '\r', '\n', ';', '#', '\'', '"', '\\'} }

  predicate Word(s: string) { s != [] && forall i :: 0 <= i < |s| ==> Plain(s[i]) }

  /** A section that has neither a type nor a name is printed and read back too. */
  predicate Titled(s: Section) { Word(s.typ) || (s.typ == "" && s.name == "") }

  ghost predicate Printable(s: Section) {
    && Titled(s)
    && (forall k :: k in s.options ==> Word(k))
    && (forall k :: k in s.lists ==> Word(k))
  }

  /** An empty list prints nothing. */
  function DropEmptyLists(s: Section): Section {
    s.(lists := map k | k in s.lists && s.lists[k] != [] :: s.lists[k])
  }

  function Normalize(doc: seq<Section>): seq<Section> {
    seq(|doc|, i requires 0 <= i < |doc| => DropEmptyLists(doc[i]))
  }

  function Newlines(s: string): nat {
    if s == [] then 0 else (if s[0] == '\n' then 1 else 0) + Newlines(s[1..])
  }

  /** Appending a whole string to the current token. */
  function PushAll(st: Scanner, s: string): Scanner {
    st.(token := Some(st.Begin().token.value + s))
  }

  lemma {:induction false} ScanWord(w: string, rest: string, st: Scanner)
    requires Word(w)
    ensures Scan(w + rest, st) == Scan(rest, PushAll(st, w))
    decreases |w|
  {
    assert (w + rest)[0] == w[0] && (w + rest)[1..] == w[1..] + rest;
    if |w| == 1 {
      assert w[1..] + rest == rest && w == [w[0]];
    } else {
      ScanWord(w[1..], rest, st.Push(w[0]));
      assert st.Begin().token.value + [w[0]] + w[1..] == st.Begin().token.value + w;
    }
  }

  /** Inside single quotes, the escaped form of any value reads back as the value. */
  lemma {:induction false} ScanEscaped(v: string, rest: string, st: Scanner)
    requires st.token.Some?
    ensures ScanQuoted('\'', Escape(v) + "'" + rest, st) == Scan(rest, PushAll(st, v).(line := st.line + Newlines(v)))
    decreases |v|
  {
    var text := Escape(v) + "'" + rest;
    if v == [] {
      assert text == "'" + rest && text[1..] == rest;
      assert st.token.value + v == st.token.value;
    } else {
      var tail := Escape(v[1..]) + "'" + rest;
      assert st.token.value + [v[0]] + v[1..] == st.token.value + v;
      if v[0] == '\'' {
        assert text == "'\\''" + tail;
        var t1, t2, t3 := text[1..], text[3..], text[4..];
        assert t1[0] == '\\' && t1[1] == '\'' && t1[2..] == t2 && t2[0] == '\'' && t2[1..] == t3 == tail;
        assert ScanQuoted('\'', text, st) == Scan(t1, st);
        assert Scan(t1, st) == Scan(t2, st.Push('\''));
        assert Scan(t2, st.Push('\'')) == ScanQuoted('\'', t3, st.Push('\''));
        ScanEscaped(v[1..], rest, st.Push('\''));
      } else {
        assert text == [v[0]] + tail && text[1..] == tail;
        ScanEscaped(v[1..], rest, st.PushCounting(v[0]));
      }
    }
  }

  // -------------------------------------------------------- printed commands

  function After(st: Scanner, fields: seq<string>, lines: nat): Scanner {
    Scanner(st.commands + [Command(st.commandLine, fields)], [], None, st.line + lines, st.line + lines)
  }

  predicate AtLineStart(st: Scanner) { st.fields == [] && st.token.None? }

  lemma {:induction false} ScanField(w: string, rest: string, st: Scanner)
    requires Word(w) && st.token.None?
    ensures Scan(w + " " + rest, st) == Scan(rest, st.(fields := st.fields + [w]))
  {
    ScanWord(w, " " + rest, st);
    assert w + " " + rest == w + (" " + rest) && (" " + rest)[1..] == rest;
    assert "" + w == w;
    assert PushAll(st, w).FinishToken() == st.(fields := st.fields + [w]);
  }

  lemma {:induction false} ScanEol(rest: string, st: Scanner, v: string)
    requires st.token == Some(v)
    ensures Scan("\n" + rest, st) ==
            Scan(rest, Scanner(st.commands + [Command(st.commandLine, st.fields + [v])], [], None, st.line + 1,
                st.line + 1))
  {
    var text := "\n" + rest;
    assert text[0] == '\n' && text[1..] == rest;
    var done := Scanner(st.commands + [Command(st.commandLine, st.fields + [v])], [], None, st.line + 1, st.line + 1);
    var st' := st.FinishCommand().Newline();
    assert st'.(commandLine := st'.line) == done;
  }

  lemma {:induction false} ScanValue(v: string, rest: string, st: Scanner)
    requires st.token.None?
    ensures Scan("'" + Escape(v) + "'\n" + rest, st) ==
            Scan(rest, Scanner(st.commands + [Command(st.commandLine, st.fields + [v])], [], None,
                               st.line + Newlines(v) + 1, st.line + Newlines(v) + 1))
  {
    var eol := "\n" + rest;
    var quoted := Escape(v) + "'" + eol;
    var text := "'" + Escape(v) + "'\n" + rest;
    assert text == "'" + quoted && text[1..] == quoted;
    ScanEscaped(v, eol, st.Begin());
    assert "" + v == v;
    ScanEol(rest, PushAll(st.Begin(), v).(line := st.line + Newlines(v)), v);
  }

  /** One printed line reads back as one command with its three fields, whatever
      the value contains. */
  lemma {:induction false} ScanLine(keyword: string, word: string, val: string, rest: string, st: Scanner)
    requires Word(keyword) && Word(word) && AtLineStart(st)
    ensures Scan(Line(keyword, word, val) + rest, st) == Scan(rest, After(st, [keyword, word, val], Newlines(val) + 1))
  {
    var quoted := "'" + Escape(val) + "'\n" + rest;
    assert Line(keyword, word, val) + rest == keyword + " " + (word + " " + quoted);
    ScanField(keyword, word + " " + quoted, st);
    ScanField(word, quoted, st.(fields := st.fields + [keyword]));
    ScanValue(val, rest, st.(fields := st.fields + [keyword] + [word]));
    assert st.fields + [keyword] + [word] + [val] == [keyword, word, val];
  }

  /** An indented line. */
  lemma ScanIndented(keyword: string, word: string, val: string, rest: string, st: Scanner) returns (to: Scanner)
    requires Word(keyword) && Word(word) && AtLineStart(st)
    ensures Scan("\t" + Line(keyword, word, val) + rest, st) == Scan(rest, to)
    ensures Read(st, to, [[keyword, word, val]])
  {
    var text := "\t" + Line(keyword, word, val) + rest;
    assert text[1..] == Line(keyword, word, val) + rest;
    ScanLine(keyword, word, val, rest, st);
    to := After(st, [keyword, word, val], Newlines(val) + 1);
  }

  lemma Keywords()
    ensures Word("config") && Word("option") && Word("list")
  {}

  /** The field lists a section prints, in order. */
  ghost function OptionFields(ks: seq<string>, m: map<string, string>): seq<seq<string>>
    requires forall k :: k in ks ==> k in m
  {
    if ks == [] then [] else [["option", ks[0], m[ks[0]]]] + OptionFields(ks[1..], m)
  }

  ghost function ValueFields(key: string, vs: seq<string>): seq<seq<string>> {
    if vs == [] then [] else [["list", key, vs[0]]] + ValueFields(key, vs[1..])
  }

  ghost function ListFields(ks: seq<string>, m: map<string, seq<string>>): seq<seq<string>>
    requires forall k :: k in ks ==> k in m
  {
    if ks == [] then [] else ValueFields(ks[0], m[ks[0]]) + ListFields(ks[1..], m)
  }

  function HeaderFields(s: Section): seq<string> {
    if s.typ == "" then ["config", s.name] else ["config", s.typ, s.name]
  }

  ghost function SectionFields(s: Section): seq<seq<string>> {
    [HeaderFields(s)] + OptionFields(Sorted(s.options.Keys), s.options) + ListFields(Sorted(s.lists.Keys), s.lists)
  }

  ghost function DocFields(doc: seq<Section>): seq<seq<string>> {
    if doc == [] then [] else SectionFields(doc[0]) + DocFields(doc[1..])
  }

  function Fields(cmds: seq<Command>): seq<seq<string>> {
    seq(|cmds|, i requires 0 <= i < |cmds| => cmds[i].fields)
  }

  /** `to` is `from` after reading text that printed exactly these commands. */
  ghost predicate Read(from: Scanner, to: Scanner, fields: seq<seq<string>>) {
    AtLineStart(to) && Fields(to.commands) == Fields(from.commands) + fields
  }

  lemma ReadThen(a: Scanner, b: Scanner, c: Scanner, f: seq<seq<string>>, g: seq<seq<string>>)
    requires Read(a, b, f) && Read(b, c, g)
    ensures Read(a, c, f + g)
  {}

  lemma {:induction false} ScanOptions(ks: seq<string>, m: map<string, string>, rest: string, st: Scanner)
      returns (to: Scanner)
    requires forall k :: k in ks ==> k in m && Word(k)
    requires AtLineStart(st)
    ensures Scan(OptionLines(ks, m) + rest, st) == Scan(rest, to) && Read(st, to, OptionFields(ks, m))
    decreases |ks|
  {
    if ks == [] {
      assert OptionLines(ks, m) + rest == rest;
      to := st;
    } else {
      var line, tail := Line("option", ks[0], m[ks[0]]), OptionLines(ks[1..], m) + rest;
      assert ks[0] in ks;
      assert OptionLines(ks, m) + rest == "\t" + line + tail;
      Keywords();
      var mid := ScanIndented("option", ks[0], m[ks[0]], tail, st);
      to := ScanOptions(ks[1..], m, rest, mid);
      ReadThen(st, mid, to, [["option", ks[0], m[ks[0]]]], OptionFields(ks[1..], m));
    }
  }

  lemma {:induction false} ScanValues(key: string, vs: seq<string>, rest: string, st: Scanner) returns (to: Scanner)
    requires Word(key) && AtLineStart(st)
    ensures Scan(ValueLines(key, vs) + rest, st) == Scan(rest, to) && Read(st, to, ValueFields(key, vs))
    decreases |vs|
  {
    if vs == [] {
      assert ValueLines(key, vs) + rest == rest;
      to := st;
    } else {
      var line, tail := Line("list", key, vs[0]), ValueLines(key, vs[1..]) + rest;
      assert ValueLines(key, vs) + rest == "\t" + line + tail;
      Keywords();
      var mid := ScanIndented("list", key, vs[0], tail, st);
      to := ScanValues(key, vs[1..], rest, mid);
      ReadThen(st, mid, to, [["list", key, vs[0]]], ValueFields(key, vs[1..]));
    }
  }

  lemma {:induction false} ScanLists(ks: seq<string>, m: map<string, seq<string>>, rest: string, st: Scanner)
      returns (to: Scanner)
    requires forall k :: k in ks ==> k in m && Word(k)
    requires AtLineStart(st)
    ensures Scan(ListLines(ks, m) + rest, st) == Scan(rest, to) && Read(st, to, ListFields(ks, m))
    decreases |ks|
  {
    if ks == [] {
      assert ListLines(ks, m) + rest == rest;
      to := st;
    } else {
      assert ks[0] in ks;
      assert ListLines(ks, m) + rest == ValueLines(ks[0], m[ks[0]]) + (ListLines(ks[1..], m) + rest);
      var mid := ScanValues(ks[0], m[ks[0]], ListLines(ks[1..], m) + rest, st);
      to := ScanLists(ks[1..], m, rest, mid);
      ReadThen(st, mid, to, ValueFields(ks[0], m[ks[0]]), ListFields(ks[1..], m));
    }
  }

  lemma {:induction false} ScanBlank(rest: string, st: Scanner) returns (to: Scanner)
    requires AtLineStart(st)
    ensures Scan("\n" + rest, st) == Scan(rest, to) && Read(st, to, [])
  {
    assert ("\n" + rest)[1..] == rest;
    to := st.Newline().(commandLine := st.line + 1);
  }

  lemma {:induction false} ScanHeader(s: Section, rest: string, st: Scanner) returns (to: Scanner)
    requires Titled(s) && AtLineStart(st)
    ensures Scan(Line("config", s.typ, s.name) + rest, st) == Scan(rest, to) && Read(st, to, [HeaderFields(s)])
  {
    Keywords();
    if s.typ == "" {
      ScanUntitled(rest, st);
      to := After(st, ["config", ""], 1);
    } else {
      ScanLine("config", s.typ, s.name, rest, st);
      to := After(st, ["config", s.typ, s.name], Newlines(s.name) + 1);
    }
  }

  lemma {:induction false} ScanUntitled(rest: string, st: Scanner)
    requires AtLineStart(st)
    ensures Scan(Line("config", "", "") + rest, st) == Scan(rest, After(st, ["config", ""], 1))
  {
    Keywords();
    var quoted := "'" + Escape("") + "'\n" + rest;
    var st' := st.(fields := ["config"]);
    assert Line("config", "", "") + rest == "config" + " " + (" " + quoted);
    ScanField("config", " " + quoted, st);
    assert st.fields + ["config"] == ["config"];
    assert (" " + quoted)[1..] == quoted;
    ScanValue("", rest, st');
    assert ["config"] + [""] == ["config", ""];
  }

  lemma {:induction false} ScanSection(s: Section, rest: string, st: Scanner) returns (to: Scanner)
    requires Printable(s) && AtLineStart(st)
    ensures Scan(PrintSection(s) + rest, st) == Scan(rest, to) && Read(st, to, SectionFields(s))
  {
    var oks, lks := Sorted(s.options.Keys), Sorted(s.lists.Keys);
    var h, o, l := Line("config", s.typ, s.name), OptionLines(oks, s.options), ListLines(lks, s.lists);
    var fh, fo, fl := [HeaderFields(s)], OptionFields(oks, s.options), ListFields(lks, s.lists);
    assert PrintSection(s) + rest == h + (o + (l + ("\n" + rest)));
    var st1 := ScanHeader(s, o + (l + ("\n" + rest)), st);
    var st2 := ScanOptions(oks, s.options, l + ("\n" + rest), st1);
    var st3 := ScanLists(lks, s.lists, "\n" + rest, st2);
    to := ScanBlank(rest, st3);
    ReadThen(st, st1, st2, fh, fo);
    ReadThen(st, st2, st3, fh + fo, fl);
    ReadThen(st, st3, to, fh + fo + fl, []);
    assert fh + fo + fl + [] == SectionFields(s);
  }

  lemma ScanEnd(st: Scanner)
    requires AtLineStart(st)
    ensures Scan("", st) == Ok(st.commands)
  {}

  lemma {:induction false} PrintFirst(doc: seq<Section>, rest: string)
    requires doc != []
    ensures Print(doc) + rest == PrintSection(doc[0]) + (Print(doc[1..]) + rest)
  {}

  lemma {:induction false} ScanDoc(doc: seq<Section>, rest: string, st: Scanner) returns (to: Scanner)
    requires (forall s :: s in doc ==> Printable(s)) && AtLineStart(st)
    ensures Scan(Print(doc) + rest, st) == Scan(rest, to) && Read(st, to, DocFields(doc))
    decreases |doc|
  {
    if doc == [] {
      assert Print(doc) + rest == rest;
      to := st;
    } else {
      assert doc[0] in doc;
      PrintFirst(doc, rest);
      var mid := ScanSection(doc[0], Print(doc[1..]) + rest, st);
      to := ScanDoc(doc[1..], rest, mid);
      ReadThen(st, mid, to, SectionFields(doc[0]), DocFields(doc[1..]));
    }
  }

  // ------------------------------------------------- commands back to sections

  /** The document a list of field lists builds, ignoring line numbers. */
  function Build(fields: seq<seq<string>>, doc: seq<Section>): Option<seq<Section>>
    decreases |fields|
  {
    if fields == [] then Some(doc)
    else match ApplyCommand(fields[0], doc)
      case Bad(_) => None
      case Next(doc') => Build(fields[1..], doc')
  }

  lemma {:induction false} InterpretBuilds(cmds: seq<Command>, doc: seq<Section>)
    ensures Build(Fields(cmds), doc).Some? ==> Interpret(cmds, doc) == Ok(Build(Fields(cmds), doc).value)
    ensures Interpret(cmds, doc).Ok? ==> Build(Fields(cmds), doc) == Some(Interpret(cmds, doc).value)
    decreases |cmds|
  {
    if cmds != [] {
      assert Fields(cmds)[0] == cmds[0].fields && Fields(cmds)[1..] == Fields(cmds[1..]);
      match ApplyCommand(cmds[0].fields, doc)
      case Bad(_) =>
      case Next(doc') => InterpretBuilds(cmds[1..], doc');
    }
  }

  lemma {:induction false} BuildAppend(f: seq<seq<string>>, g: seq<seq<string>>, doc: seq<Section>, mid: seq<Section>)
    requires Build(f, doc) == Some(mid)
    ensures Build(f + g, doc) == Build(g, mid)
    decreases |f|
  {
    if f == [] {
      assert f + g == g;
    } else {
      assert (f + g)[0] == f[0] && (f + g)[1..] == f[1..] + g;
      BuildAppend(f[1..], g, ApplyCommand(f[0], doc).doc, mid);
    }
  }

  function Take<V>(ks: seq<string>, m: map<string, V>): map<string, V>
    requires forall k :: k in ks ==> k in m
  {
    map k | k in ks :: m[k]
  }

  lemma ApplyToLast(pre: seq<Section>, cur: Section, k: string, v: string)
    ensures ApplyCommand(["option", k, v], pre + [cur]) == Next(pre + [AddOption(cur, k, v)])
    ensures ApplyCommand(["list", k, v], pre + [cur]) == Next(pre + [AddToList(cur, k, v)])
  {
    var doc := pre + [cur];
    assert doc[|doc| - 1 := AddOption(cur, k, v)] == pre + [AddOption(cur, k, v)];
    assert doc[|doc| - 1 := AddToList(cur, k, v)] == pre + [AddToList(cur, k, v)];
  }

  lemma {:induction false} BuildOptions(ks: seq<string>, m: map<string, string>, pre: seq<Section>, cur: Section)
    requires forall k :: k in ks ==> k in m
    ensures Build(OptionFields(ks, m), pre + [cur]) == Some(pre + [cur.(options := cur.options + Take(ks, m))])
    decreases |ks|
  {
    if ks == [] {
      assert cur.options + Take(ks, m) == cur.options;
    } else {
      assert ks[0] in ks;
      var f := OptionFields(ks, m);
      assert f[0] == ["option", ks[0], m[ks[0]]] && f[1..] == OptionFields(ks[1..], m);
      ApplyToLast(pre, cur, ks[0], m[ks[0]]);
      BuildOptions(ks[1..], m, pre, AddOption(cur, ks[0], m[ks[0]]));
      assert cur.options[ks[0] := m[ks[0]]] + Take(ks[1..], m) == cur.options + Take(ks, m);
    }
  }

  function Extended(s: Section, key: string, vs: seq<string>): Section {
    if vs == [] then s else s.(lists := s.lists[key := (if key in s.lists then s.lists[key] else []) + vs])
  }

  lemma ExtendedStep(s: Section, key: string, vs: seq<string>)
    requires vs != []
    ensures Extended(AddToList(s, key, vs[0]), key, vs[1..]) == Extended(s, key, vs)
  {
    var before := if key in s.lists then s.lists[key] else [];
    assert before + [vs[0]] + vs[1..] == before + vs;
    if vs[1..] == [] {
      assert vs == [vs[0]];
    } else {
      assert s.lists[key := before + [vs[0]]][key := before + vs] == s.lists[key := before + vs];
    }
  }

  lemma {:induction false} BuildValues(key: string, vs: seq<string>, pre: seq<Section>, cur: Section)
    ensures Build(ValueFields(key, vs), pre + [cur]) == Some(pre + [Extended(cur, key, vs)])
    decreases |vs|
  {
    if vs != [] {
      var f := ValueFields(key, vs);
      assert f[0] == ["list", key, vs[0]] && f[1..] == ValueFields(key, vs[1..]);
      ApplyToLast(pre, cur, key, vs[0]);
      BuildValues(key, vs[1..], pre, AddToList(cur, key, vs[0]));
      ExtendedStep(cur, key, vs);
    }
  }

  function NonEmpty(ks: seq<string>, m: map<string, seq<string>>): map<string, seq<string>>
    requires forall k :: k in ks ==> k in m
  {
    map k | k in ks && m[k] != [] :: m[k]
  }

  lemma NonEmptyStep(ks: seq<string>, m: map<string, seq<string>>, cur: Section)
    requires (forall k :: k in ks ==> k in m) && ks != [] && ks[0] !in cur.lists
    ensures Extended(cur, ks[0], m[ks[0]]).lists + NonEmpty(ks[1..], m) == cur.lists + NonEmpty(ks, m)
  {
    assert [] + m[ks[0]] == m[ks[0]];
    assert forall k :: k in ks <==> k == ks[0] || k in ks[1..];
  }

  lemma {:induction false} BuildLists(ks: seq<string>, m: map<string, seq<string>>, pre: seq<Section>, cur: Section)
    requires forall k :: k in ks ==> k in m && k !in cur.lists
    requires forall i, j :: 0 <= i < j < |ks| ==> ks[i] != ks[j]
    ensures Build(ListFields(ks, m), pre + [cur]) == Some(pre + [cur.(lists := cur.lists + NonEmpty(ks, m))])
    decreases |ks|
  {
    if ks == [] {
      assert cur.lists + NonEmpty(ks, m) == cur.lists;
    } else {
      assert ks[0] in ks && ks[0] !in ks[1..];
      var cur' := Extended(cur, ks[0], m[ks[0]]);
      BuildValues(ks[0], m[ks[0]], pre, cur);
      BuildAppend(ValueFields(ks[0], m[ks[0]]), ListFields(ks[1..], m), pre + [cur], pre + [cur']);
      BuildLists(ks[1..], m, pre, cur');
      NonEmptyStep(ks, m, cur);
    }
  }

  lemma BuildHeader(s: Section, doc: seq<Section>)
    requires Titled(s)
    ensures Build([HeaderFields(s)], doc) == Some(doc + [Section(s.typ, s.name, map[], map[])])
  {
    var f := [HeaderFields(s)];
    var doc' := doc + [Section(s.typ, s.name, map[], map[])];
    assert ApplyCommand(f[0], doc) == Next(doc');
    assert f[1..] == [];
    assert Build([], doc') == Some(doc');
  }

  lemma BuildAllOptions(s: Section, doc: seq<Section>)
    ensures Build(OptionFields(Sorted(s.options.Keys), s.options), doc + [Section(s.typ, s.name, map[], map[])])
         == Some(doc + [Section(s.typ, s.name, s.options, map[])])
  {
    var ks := Sorted(s.options.Keys);
    BuildOptions(ks, s.options, doc, Section(s.typ, s.name, map[], map[]));
    assert map[] + Take(ks, s.options) == s.options;
  }

  lemma BuildAllLists(s: Section, doc: seq<Section>)
    ensures Build(ListFields(Sorted(s.lists.Keys), s.lists), doc + [Section(s.typ, s.name, s.options, map[])])
         == Some(doc + [DropEmptyLists(s)])
  {
    var ks := Sorted(s.lists.Keys);
    AscendingDistinct(ks);
    BuildLists(ks, s.lists, doc, Section(s.typ, s.name, s.options, map[]));
    assert map[] + NonEmpty(ks, s.lists) == DropEmptyLists(s).lists;
  }

  lemma BuildSection(s: Section, doc: seq<Section>)
    requires Titled(s)
    ensures Build(SectionFields(s), doc) == Some(doc + [DropEmptyLists(s)])
  {
    var fh := [HeaderFields(s)];
    var fo, fl := OptionFields(Sorted(s.options.Keys), s.options), ListFields(Sorted(s.lists.Keys), s.lists);
    var doc1 := doc + [Section(s.typ, s.name, map[], map[])];
    var doc2 := doc + [Section(s.typ, s.name, s.options, map[])];
    BuildHeader(s, doc);
    BuildAllOptions(s, doc);
    BuildAllLists(s, doc);
    BuildAppend(fh, fo, doc, doc1);
    BuildAppend(fh + fo, fl, doc, doc2);
  }

  lemma NormalizeFirst(doc: seq<Section>, before: seq<Section>)
    requires doc != []
    ensures before + [DropEmptyLists(doc[0])] + Normalize(doc[1..]) == before + Normalize(doc)
  {
    assert Normalize(doc) == [DropEmptyLists(doc[0])] + Normalize(doc[1..]);
  }

  lemma {:induction false} BuildDoc(doc: seq<Section>, before: seq<Section>)
    requires forall s :: s in doc ==> Titled(s)
    ensures Build(DocFields(doc), before) == Some(before + Normalize(doc))
    decreases |doc|
  {
    if doc == [] {
      assert before + Normalize(doc) == before;
    } else {
      var mid := before + [DropEmptyLists(doc[0])];
      assert doc[0] in doc;
      BuildSection(doc[0], before);
      BuildAppend(SectionFields(doc[0]), DocFields(doc[1..]), before, mid);
      BuildDoc(doc[1..], mid);
      NormalizeFirst(doc, before);
    }
  }

  /** Printing then parsing returns the same sections in order, with the same
      options and non-empty lists, whatever characters names and values contain. */
  lemma RoundTrip(doc: seq<Section>)
    requires forall s :: s in doc ==> Printable(s)
    ensures Parse(Print(doc)) == Ok(Normalize(doc))
  {
    var to := ScanDoc(doc, "", START);
    assert Print(doc) + "" == Print(doc);
    ScanEnd(to);
    assert Fields(START.commands) + DocFields(doc) == DocFields(doc);
    assert forall s :: s in doc ==> Titled(s);
    BuildDoc(doc, []);
    assert [] + Normalize(doc) == Normalize(doc);
    InterpretBuilds(to.commands, []);
  }

  ghost predicate NoEmptyList(s: Section) { forall k :: k in s.lists ==> s.lists[k] != [] }

  lemma DropExactly(s: Section)
    ensures DropEmptyLists(s) == s <==> NoEmptyList(s)
  {
    var kept := DropEmptyLists(s).lists;
    if NoEmptyList(s) { assert kept == s.lists; }
    assert kept == s.lists ==> forall k :: k in s.lists ==> k in kept;
  }

  lemma NormalizeExactly(doc: seq<Section>)
    ensures Normalize(doc) == doc <==> forall s :: s in doc ==> NoEmptyList(s)
  {
    forall i | 0 <= i < |doc| ensures Normalize(doc)[i] == doc[i] <==> NoEmptyList(doc[i]) { DropExactly(doc[i]); }
    assert Normalize(doc) == doc <==> forall i :: 0 <= i < |doc| ==> Normalize(doc)[i] == doc[i];
  }

  /** Nothing is lost exactly when the document has no empty list. */
  lemma RoundTripExact(doc: seq<Section>)
    requires forall s :: s in doc ==> Printable(s)
    ensures Parse(Print(doc)) == Ok(doc) <==> forall s :: s in doc ==> NoEmptyList(s)
  {
    RoundTrip(doc);
    NormalizeExactly(doc);
  }
}
