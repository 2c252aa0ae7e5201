/** Why section types and keys must be plain words: a word field of a printed line
    is read back as itself only then, whatever follows on this or later lines. */
module UciExact {
  import opened Base
  import opened ByteOrder
  import opened Uci

  /** The field after the first of the command that a scan in progress completes
      next. */
  predicate HasSecond(r: Result<seq<Command>>, n: nat) { r.Ok? && n < |r.value| && |r.value[n].fields| >= 2 }

  function Second(r: Result<seq<Command>>, n: nat): string
    requires HasSecond(r, n)
  {
    r.value[n].fields[1]
  }

  /** In the middle of the second field of a command. */
  predicate InSecond(st: Scanner) { |st.fields| == 1 && st.token.Some? }

  // ------------------------------------------------------ what scanning keeps

  /** Finished commands stay, and so do the finished fields of the next one. */
  ghost predicate Extends(st: Scanner, r: Result<seq<Command>>) {
    r.Ok? ==>
      && st.commands <= r.value
      && (st.fields != [] ==> |r.value| > |st.commands| && st.fields <= r.value[|st.commands|].fields)
  }

  lemma ExtendsLater(st: Scanner, st': Scanner, r: Result<seq<Command>>)
    requires Extends(st', r) && st.commands <= st'.commands
    requires st.fields != [] ==>
               if st'.commands == st.commands then st.fields <= st'.fields
               else |st'.commands| > |st.commands| && st.fields <= st'.commands[|st.commands|].fields
    ensures Extends(st, r)
  {
    if r.Ok? && st.fields != [] && |st'.commands| > |st.commands| {
      assert r.value[|st.commands|] == st'.commands[|st.commands|];
    }
  }

  lemma FinishExtends(st: Scanner, r: Result<seq<Command>>)
    requires Extends(st.FinishCommand(), r)
    ensures Extends(st, r)
  {
    var st' := st.FinishCommand();
    if st.fields != [] { assert st'.commands[|st.commands|].fields == st.FinishToken().fields; }
    ExtendsLater(st, st', r);
  }

  lemma {:induction false} ScanExtends(s: string, st: Scanner)
    ensures Extends(st, Scan(s, st))
    decreases |s|
  {
    if s == [] {
      assert Extends(st.FinishCommand(), Ok(st.FinishCommand().commands));
      FinishExtends(st, Scan(s, st));
    } else {
      var c, r := s[0], Scan(s, st);
      if c == ' ' || c == '\t' || c == '\r' {
        ScanExtends(s[1..], st.FinishToken());
        ExtendsLater(st, st.FinishToken(), r);
      } else if c == '\n' || c == ';' {
        var st' := if c == '\n' then st.FinishCommand().Newline() else st.FinishCommand();
        ScanExtends(s[1..], st'.(commandLine := st'.line));
        FinishExtends(st, r);
      } else if c == '#' {
        ScanExtends(SkipComment(s), st.FinishCommand());
        FinishExtends(st, r);
      } else if c == '\'' || c == '"' {
        QuotedExtends(c, s[1..], st.Begin());
      } else if c == '\\' {
        if |s| > 1 { ScanExtends(s[2..], if s[1] == '\n' then st.Begin().Newline() else st.Push(s[1])); }
      } else {
        ScanExtends(s[1..], st.Push(c));
      }
    }
  }

  lemma {:induction false} QuotedExtends(quote: char, s: string, st: Scanner)
    ensures Extends(st, ScanQuoted(quote, s, st))
    decreases |s|
  {
    if s == [] {
    } else if s[0] == quote {
      ScanExtends(s[1..], st);
    } else if s[0] == '\\' && quote == '"' {
      if |s| > 1 { QuotedExtends(quote, s[2..], if s[1] == '\n' then st.Newline() else st.Push(s[1])); }
    } else {
      QuotedExtends(quote, s[1..], st.PushCounting(s[0]));
    }
  }

  // ---------------------------------------------------- counting characters

  /** Characters that quoting and escaping never drop. */
  predicate Ordinary(c: char) { c !in {'\'', '"', '\\', '\n'} }

  function Ord(s: string): nat { if s == [] then 0 else Ord(s[..|s| - 1]) + (if Ordinary(s[|s| - 1]) then 1 else 0) }

  lemma OrdSnoc(s: string, c: char)
    ensures Ord(s + [c]) == Ord(s) + if Ordinary(c) then 1 else 0
  {
    assert (s + [c])[..|s|] == s;
  }

  lemma {:induction false} OrdCons(c: char, s: string)
    ensures Ord([c] + s) == (if Ordinary(c) then 1 else 0) + Ord(s)
    decreases |s|
  {
    if s == [] {
      assert [c] + s == [] + [c];
      OrdSnoc([], c);
    } else {
      var n := |s| - 1;
      OrdCons(c, s[..n]);
      assert [c] + s == ([c] + s[..n]) + [s[n]];
      OrdSnoc([c] + s[..n], s[n]);
    }
  }

  lemma {:induction false} OrdPrefix(a: string, b: string)
    requires a <= b
    ensures Ord(a) <= Ord(b)
    decreases |b|
  {
    if a != b { OrdPrefix(a, b[..|b| - 1]); }
  }

  // ----------------------------------------------- a field that reads back

  predicate AllPlain(u: string) { forall i :: 0 <= i < |u| ==> Plain(u[i]) }

  /** What becomes of the second field, `w` of it being read, with `u` still to come
      before the value: it is too short, or has too many ordinary characters, or is
      the plain continuation. */
  ghost predicate Fate(r: Result<seq<Command>>, n: nat, w: string, u: string) {
    HasSecond(r, n) ==>
      var v := Second(r, n);
      |v| < |w| + |u| || Ord(v) > Ord(w) + Ord(u) || (v == w + u && AllPlain(u))
  }

  /** The same inside quotes, where the plain continuation is no longer possible. */
  ghost predicate QuotedFate(r: Result<seq<Command>>, n: nat, w: string, u: string) {
    HasSecond(r, n) ==> var v := Second(r, n); |v| < |w| + |u| || Ord(v) > Ord(w) + Ord(u)
  }

  /** A token in progress is a prefix of its field. */
  lemma {:induction false} TokenStays(s: string, st: Scanner)
    requires InSecond(st)
    ensures var r := Scan(s, st); HasSecond(r, |st.commands|) ==> st.token.value <= Second(r, |st.commands|)
    decreases |s|
  {
    if s == [] {
    } else {
      var c := s[0];
      if c == ' ' || c == '\t' || c == '\r' {
        ScanExtends(s[1..], st.FinishToken());
      } else if c == '\n' || c == ';' {
        var st' := if c == '\n' then st.FinishCommand().Newline() else st.FinishCommand();
        ScanExtends(s[1..], st'.(commandLine := st'.line));
      } else if c == '#' {
        ScanExtends(SkipComment(s), st.FinishCommand());
      } else if c == '\'' || c == '"' {
        QuotedStays(c, s[1..], st);
      } else if c == '\\' {
        if |s| > 1 { TokenStays(s[2..], if s[1] == '\n' then st.Begin().Newline() else st.Push(s[1])); }
      } else {
        TokenStays(s[1..], st.Push(c));
      }
    }
  }

  lemma {:induction false} QuotedStays(quote: char, s: string, st: Scanner)
    requires InSecond(st)
    ensures var r := ScanQuoted(quote, s, st); HasSecond(r, |st.commands|) ==>
            st.token.value <= Second(r, |st.commands|)
    decreases |s|
  {
    if s == [] {
    } else if s[0] == quote {
      TokenStays(s[1..], st);
    } else if s[0] == '\\' && quote == '"' {
      if |s| > 1 { QuotedStays(quote, s[2..], if s[1] == '\n' then st.Newline() else st.Push(s[1])); }
    } else {
      QuotedStays(quote, s[1..], st.PushCounting(s[0]));
    }
  }

  /** The field ends here. */
  lemma EndsHere(s: string, st: Scanner)
    requires InSecond(st) && s != [] && s[0] in {' ', '\t', '\r', '\n', ';', '#'}
    ensures var r := Scan(s, st); HasSecond(r, |st.commands|) ==> Second(r, |st.commands|) == st.token.value
  {
    var c := s[0];
    if c == ' ' || c == '\t' || c == '\r' {
      ScanExtends(s[1..], st.FinishToken());
    } else if c == '\n' || c == ';' {
      var st' := if c == '\n' then st.FinishCommand().Newline() else st.FinishCommand();
      ScanExtends(s[1..], st'.(commandLine := st'.line));
    } else {
      ScanExtends(SkipComment(s), st.FinishCommand());
    }
  }

  /** A blank that was taken into the field makes one ordinary character too many. */
  lemma Overruns(r: Result<seq<Command>>, n: nat, w: string, u: string)
    requires HasSecond(r, n) ==> w + " " <= Second(r, n)
    requires Ord(u) == 0
    ensures QuotedFate(r, n, w, u)
  {
    OrdSnoc(w, ' ');
    if HasSecond(r, n) { OrdPrefix(w + " ", Second(r, n)); }
  }

  /** One character of `u` was taken in, or dropped because it is not ordinary. */
  lemma TookOne(r: Result<seq<Command>>, n: nat, w: string, u: string)
    requires u != [] && QuotedFate(r, n, w + [u[0]], u[1..])
    ensures QuotedFate(r, n, w, u)
  {
    OrdSnoc(w, u[0]);
    OrdCons(u[0], u[1..]);
    assert u == [u[0]] + u[1..];
  }

  lemma DroppedOne(r: Result<seq<Command>>, n: nat, w: string, u: string)
    requires u != [] && !Ordinary(u[0]) && Fate(r, n, w, u[1..])
    ensures QuotedFate(r, n, w, u)
  {
    OrdCons(u[0], u[1..]);
    assert u == [u[0]] + u[1..];
  }

  lemma {:induction false} FieldFate(u: string, rest: string, st: Scanner)
    requires InSecond(st)
    ensures Fate(Scan(u + (" " + rest), st), |st.commands|, st.token.value, u)
    decreases |u|
  {
    var s, w, n := u + (" " + rest), st.token.value, |st.commands|;
    if u == [] {
      assert s[0] == ' ' && w + u == w;
      EndsHere(s, st);
    } else {
      var c := u[0];
      assert s[0] == c && s[1..] == u[1..] + (" " + rest);
      if c in {' ', '\t', '\r', '\n', ';', '#'} {
        EndsHere(s, st);
      } else if c == '\'' || c == '"' {
        QuotedFieldFate(c, u[1..], rest, st);
        DroppedOne(Scan(s, st), n, w, u);
      } else if c == '\\' {
        EscapedFate(u, rest, st);
      } else {
        FieldFate(u[1..], rest, st.Push(c));
        PlainStep(Scan(s, st), n, w, u);
      }
    }
  }

  lemma PlainStep(r: Result<seq<Command>>, n: nat, w: string, u: string)
    requires u != [] && Plain(u[0]) && Fate(r, n, w + [u[0]], u[1..])
    ensures Fate(r, n, w, u)
  {
    OrdSnoc(w, u[0]);
    OrdCons(u[0], u[1..]);
    assert u == [u[0]] + u[1..];
    assert w + [u[0]] + u[1..] == w + u;
  }

  lemma {:induction false} EscapedFate(u: string, rest: string, st: Scanner)
    requires InSecond(st) && u != [] && u[0] == '\\'
    ensures Fate(Scan(u + (" " + rest), st), |st.commands|, st.token.value, u)
    decreases |u|, 0
  {
    var s, w, n := u + (" " + rest), st.token.value, |st.commands|;
    assert s[0] == '\\';
    if |u| == 1 {
      assert s[1] == ' ' && s[2..] == rest;
      TokenStays(rest, st.Push(' '));
      OrdCons('\\', []);
      assert u == ['\\'] + [];
      Overruns(Scan(s, st), n, w, u);
    } else {
      assert s[1] == u[1] && s[2..] == u[2..] + (" " + rest);
      assert u[1..] == [u[1]] + u[2..];
      if u[1] == '\n' {
        FieldFate(u[2..], rest, st.Begin().Newline());
        assert u[1..][1..] == u[2..];
        DroppedOne(Scan(s, st), n, w, u[1..]);
        DroppedOne(Scan(s, st), n, w, u);
      } else {
        FieldFate(u[2..], rest, st.Push(u[1]));
        EscapedStep(Scan(s, st), n, w, u);
      }
    }
  }

  lemma EscapedStep(r: Result<seq<Command>>, n: nat, w: string, u: string)
    requires |u| > 1 && u[0] == '\\' && Fate(r, n, w + [u[1]], u[2..])
    ensures QuotedFate(r, n, w, u)
  {
    OrdSnoc(w, u[1]);
    OrdCons(u[1], u[2..]);
    OrdCons(u[0], u[1..]);
    assert u[1..] == [u[1]] + u[2..] && u == [u[0]] + u[1..];
  }

  lemma {:induction false} QuotedFieldFate(quote: char, u: string, rest: string, st: Scanner)
    requires InSecond(st) && quote in {'\'', '"'}
    ensures QuotedFate(ScanQuoted(quote, u + (" " + rest), st), |st.commands|, st.token.value, u)
    decreases |u|
  {
    var s, w, n := u + (" " + rest), st.token.value, |st.commands|;
    if u == [] {
      assert s[0] == ' ' && s[1..] == rest;
      QuotedStays(quote, rest, st.Push(' '));
      Overruns(ScanQuoted(quote, s, st), n, w, u);
    } else {
      assert s[0] == u[0] && s[1..] == u[1..] + (" " + rest);
      if u[0] == quote {
        FieldFate(u[1..], rest, st);
        DroppedOne(ScanQuoted(quote, s, st), n, w, u);
      } else if u[0] == '\\' && quote == '"' {
        QuotedEscapeFate(u, rest, st);
      } else {
        QuotedFieldFate(quote, u[1..], rest, st.PushCounting(u[0]));
        TookOne(ScanQuoted(quote, s, st), n, w, u);
      }
    }
  }

  lemma {:induction false} QuotedEscapeFate(u: string, rest: string, st: Scanner)
    requires InSecond(st) && u != [] && u[0] == '\\'
    ensures QuotedFate(ScanQuoted('"', u + (" " + rest), st), |st.commands|, st.token.value, u)
    decreases |u|, 0
  {
    var s, w, n := u + (" " + rest), st.token.value, |st.commands|;
    assert s[0] == '\\';
    if |u| == 1 {
      assert s[1] == ' ' && s[2..] == rest;
      QuotedStays('"', rest, st.Push(' '));
      OrdCons('\\', []);
      assert u == ['\\'] + [];
      Overruns(ScanQuoted('"', s, st), n, w, u);
    } else {
      assert s[1] == u[1] && s[2..] == u[2..] + (" " + rest);
      if u[1] == '\n' {
        QuotedFieldFate('"', u[2..], rest, st.Newline());
        assert u[1..] == [u[1]] + u[2..] && u[1..][1..] == u[2..];
        DroppedOne(ScanQuoted('"', s, st), n, w, u[1..]);
        DroppedOne(ScanQuoted('"', s, st), n, w, u);
      } else {
        QuotedFieldFate('"', u[2..], rest, st.Push(u[1]));
        EscapedStep(ScanQuoted('"', s, st), n, w, u);
      }
    }
  }

  // ------------------------------------------------------------- main result

  predicate Blank(c: char) { c == ' ' || c == '\t' || c == '\r' }

  /** The command a line at the start of some text begins has the word as its second
      field. */
  predicate ReadsBack(keyword: string, word: string, rest: string, st: Scanner) {
    var r := Scan(keyword + " " + (word + (" " + rest)), st);
    HasSecond(r, |st.commands|) && Second(r, |st.commands|) == word
  }

  /** A type or key that does not begin with a blank is read back as itself only if
      it is a plain word, whatever follows it: quotes, escapes, separators and
      comments in it cannot be made up for by the rest of the text. */
  lemma OnlyWordsReadBack(keyword: string, word: string, rest: string, st: Scanner)
    requires Word(keyword) && AtLineStart(st) && word != "" && !Blank(word[0])
    requires ReadsBack(keyword, word, rest, st)
    ensures Word(word)
  {
    var tail := word + (" " + rest);
    ScanField(keyword, tail, st);
    var st1 := st.(fields := [keyword]);
    assert st.fields + [keyword] == [keyword];
    SecondBegins(word, rest, st1);
    var r := Scan(tail, st1);
    assert Fate(r, |st.commands|, "", word);
    assert "" + word == word;
  }

  /** The second field begins with the word's first character, or never. */
  lemma SecondBegins(word: string, rest: string, st: Scanner)
    requires |st.fields| == 1 && st.token.None? && word != "" && !Blank(word[0])
    ensures Fate(Scan(word + (" " + rest), st), |st.commands|, "", word)
  {
    var s, begun := word + (" " + rest), st.Begin();
    assert s[0] == word[0];
    if word[0] == '\n' || word[0] == ';' {
      var st' := if word[0] == '\n' then st.FinishCommand().Newline() else st.FinishCommand();
      ScanExtends(s[1..], st'.(commandLine := st'.line));
    } else if word[0] == '#' {
      ScanExtends(SkipComment(s), st.FinishCommand());
    } else {
      FieldFate(word, rest, begun);
      assert Scan(s, st) == Scan(s, begun);
    }
  }

  /** And a plain word is, whenever the rest of the text can be read at all. */
  lemma WordsReadBack(keyword: string, word: string, rest: string, st: Scanner)
    requires Word(keyword) && Word(word) && AtLineStart(st)
    requires Scan(keyword + " " + (word + (" " + rest)), st).Ok?
    ensures ReadsBack(keyword, word, rest, st)
  {
    ScanField(keyword, word + (" " + rest), st);
    var st1 := st.(fields := [keyword]);
    assert st.fields + [keyword] == [keyword];
    assert word + (" " + rest) == word + " " + rest;
    ScanField(word, rest, st1);
    var st2 := st1.(fields := [keyword] + [word]);
    ScanExtends(rest, st2);
  }

  lemma {:induction false} BlankQuote(rest: string, st: Scanner)
    requires st.token.None?
    ensures Scan(" '" + rest, st) == ScanQuoted('\'', rest, st.Begin())
  {
    var s := " '" + rest;
    assert s[1..][0] == '\'' && s[1..][1..] == rest;
    assert Scan(s, st) == Scan(s[1..], st);
  }

  lemma {:induction false} QuotedBlank(rest: string, st: Scanner)
    ensures ScanQuoted('\'', " '" + rest, st) == Scan(rest, st.Push(' '))
  {
    var s := " '" + rest;
    assert s[1..][0] == '\'' && s[1..][1..] == rest;
    assert ScanQuoted('\'', s, st) == ScanQuoted('\'', s[1..], st.Push(' '));
  }

  lemma {:induction false} EscapedQuote(rest: string, st: Scanner)
    ensures Scan("\\'" + rest, st) == Scan(rest, st.Push('\''))
  {
    var s := "\\'" + rest;
    assert s[0] == '\\' && s[1] == '\'' && s[2..] == rest;
  }

  /** The restriction to words that do not begin with a blank is needed for a single
      line: this is the line printed for the type " '" and the name "\\", and its
      second field is the type (the whole document does not survive, though). */
  lemma {:induction false} BlankMayReadBack()
    ensures "config" + " " + (" '" + (" " + "'\\'\n")) == Line("config", " '", "\\")
    ensures ReadsBack("config", " '", "'\\'\n", START)
  {
    assert Escape("\\") == "\\" by { assert "\\"[1..] == "" && Escape("") == ""; }
    var tail := " '" + (" '" + ("\\'" + "\n"));
    assert " '" + (" " + "'\\'\n") == tail;
    Keywords();
    ScanField("config", tail, START);
    assert START.fields + ["config"] == ["config"];
    BlankReads(START.(fields := ["config"]));
  }

  lemma {:induction false} BlankReads(st: Scanner)
    requires st == START.(fields := ["config"])
    ensures Scan(" '" + (" '" + ("\\'" + "\n")), st) == Ok([Command(1, ["config", " '"])])
  {
    BlankQuote(" '" + ("\\'" + "\n"), st);
    QuotedBlank("\\'" + "\n", st.Begin());
    assert "" + " " == " " && " " + "'" == " '";
    EscapedQuote("\n", st.(token := Some(" ")));
    assert "\n" + "" == "\n";
    ScanEol("", st.(token := Some(" '")), " '");
    var done := Scanner([Command(1, ["config", " '"])], [], None, 2, 2);
    assert ["config"] + [" '"] == ["config", " '"] && [] + done.commands == done.commands;
    ScanEnd(done);
  }
}
