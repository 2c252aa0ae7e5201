/** The converse of the round trip: a document that survives printing and parsing has
    plain words for types and keys, or a section with neither type nor name, and no
    empty list.

    The argument counts characters.  Reading drops no more of a character than
    printing added.  Printing adds no double quote, separator or comment sign, so none
    is ever read as one; it adds as many backslashes as it escapes quotes, and every
    quote read back takes one, so no type or key has a quote; and then it adds as many
    blanks and line ends as the lines themselves drop, so no type or key has any. */
module UciConverse {
  import opened Base
  import opened ByteOrder
  import opened Uci
  import opened UciExact

  // ---------------------------------------------------------------- counting

  function B(b: bool): nat { if b then 1 else 0 }

  function N(c: char, s: string): nat { multiset(s)[c] }

  lemma {:induction false} NCons(c: char, s: string)
    requires s != []
    ensures N(c, s) == B(s[0] == c) + N(c, s[1..])
  {
    assert s == [s[0]] + s[1..];
  }

  /** The characters of some fields, and of the fields of some commands. */
  function FN(c: char, fs: seq<string>): nat { if fs == [] then 0 else N(c, fs[0]) + FN(c, fs[1..]) }

  function CN(c: char, cs: seq<seq<string>>): nat { if cs == [] then 0 else FN(c, cs[0]) + CN(c, cs[1..]) }

  lemma {:induction false} FNSnoc(c: char, fs: seq<string>, f: string)
    ensures FN(c, fs + [f]) == FN(c, fs) + N(c, f)
    decreases |fs|
  {
    if fs == [] {
      assert fs + [f] == [f] && [f][1..] == [];
    } else {
      assert (fs + [f])[0] == fs[0] && (fs + [f])[1..] == fs[1..] + [f];
      FNSnoc(c, fs[1..], f);
    }
  }

  lemma {:induction false} CNCat(c: char, a: seq<seq<string>>, b: seq<seq<string>>)
    ensures CN(c, a + b) == CN(c, a) + CN(c, b)
    decreases |a|
  {
    if a == [] {
      assert a + b == b;
    } else {
      assert (a + b)[0] == a[0] && (a + b)[1..] == a[1..] + b;
      CNCat(c, a[1..], b);
    }
  }

  lemma {:induction false} CNOne(c: char, f: seq<string>)
    ensures CN(c, [f]) == FN(c, f)
  {
    assert [f][1..] == [];
  }

  lemma {:induction false} InBag(a: seq<seq<string>>, x: seq<string>) returns (i: nat)
    requires x in a
    ensures i < |a| && a[i] == x
  {
    i :| 0 <= i < |a| && a[i] == x;
  }

  lemma {:induction false} BagLess(x: seq<string>, a: multiset<seq<string>>, b: multiset<seq<string>>)
    requires multiset{x} + a <= multiset{x} + b
    ensures a <= b
  {
    forall y ensures a[y] <= b[y] { assert (multiset{x} + a)[y] <= (multiset{x} + b)[y]; }
  }

  /** Fewer commands, fewer characters. */
  lemma {:induction false} CNBag(c: char, a: seq<seq<string>>, b: seq<seq<string>>)
    requires multiset(a) <= multiset(b)
    ensures CN(c, a) <= CN(c, b)
    decreases |a|
  {
    if a != [] {
      assert a == [a[0]] + a[1..];
      assert a[0] in multiset(b);
      var i := InBag(b, a[0]);
      var l, r := b[..i], b[i + 1..];
      assert b == l + ([b[i]] + r);
      assert multiset(a) == multiset{a[0]} + multiset(a[1..]);
      assert multiset(b) == multiset{a[0]} + multiset(l + r);
      BagLess(a[0], multiset(a[1..]), multiset(l + r));
      CNBag(c, a[1..], l + r);
      CNCat(c, l, r);
      CNCat(c, l, [b[i]] + r);
      CNCat(c, [b[i]], r);
      CNOne(c, b[i]);
    }
  }

  // ------------------------------------------------- what a scanner holds

  function Tok(st: Scanner): string { if st.token.Some? then st.token.value else "" }

  function HN(c: char, st: Scanner): nat { CN(c, Fields(st.commands)) + FN(c, st.fields) + N(c, Tok(st)) }

  lemma {:induction false} HoldsToken(c: char, st: Scanner)
    ensures HN(c, st.FinishToken()) == HN(c, st)
  {
    if st.token.Some? { FNSnoc(c, st.fields, st.token.value); }
  }

  lemma {:induction false} HoldsCommand(c: char, st: Scanner)
    ensures HN(c, st.FinishCommand()) == HN(c, st)
  {
    HoldsToken(c, st);
    var s := st.FinishToken();
    assert s.token.None?;
    if s.fields != [] {
      assert Fields(s.commands + [Command(s.commandLine, s.fields)]) == Fields(s.commands) + [s.fields];
      CNCat(c, Fields(s.commands), [s.fields]);
      CNOne(c, s.fields);
    }
  }

  lemma {:induction false} HoldsPush(c: char, st: Scanner, x: char)
    ensures HN(c, st.Push(x)) == HN(c, st) + B(x == c)
    ensures HN(c, st.PushCounting(x)) == HN(c, st) + B(x == c)
    ensures HN(c, st.Begin()) == HN(c, st) && HN(c, st.Newline()) == HN(c, st)
  {}

  // ----------------------------------------------------------- what is dropped

  /** How many of a character reading drops, at least: separators, terminators,
      comment signs, quotes, and what escapes. */
  function Drop(c: char, s: string): nat
    decreases |s|
  {
    if s == [] then 0
    else if s[0] in {' ', '\t', '\r', '\n', ';'} then B(s[0] == c) + Drop(c, s[1..])
    else if s[0] == '#' then B(c == '#') + Drop(c, SkipComment(s))
    else if s[0] == '\'' || s[0] == '"' then B(s[0] == c) + DropQuoted(c, s[0], s[1..])
    else if s[0] == '\\' then
      if |s| == 1 then 0 else B(c == '\\') + B(c == '\n' == s[1]) + Drop(c, s[2..])
    else Drop(c, s[1..])
  }

  function DropQuoted(c: char, quote: char, s: string): nat
    decreases |s|
  {
    if s == [] then 0
    else if s[0] == quote then B(c == quote) + Drop(c, s[1..])
    else if s[0] == '\\' && quote == '"' then
      if |s| == 1 then 0 else B(c == '\\') + B(c == '\n' == s[1]) + DropQuoted(c, quote, s[2..])
    else DropQuoted(c, quote, s[1..])
  }

  /** How many characters other than a quote are escaped outside quotes. */
  function Other(s: string): nat
    decreases |s|
  {
    if s == [] then 0
    else if s[0] == '#' then Other(SkipComment(s))
    else if s[0] == '\'' || s[0] == '"' then OtherQuoted(s[0], s[1..])
    else if s[0] == '\\' then
      if |s| == 1 then 0 else B(s[1] != '\'') + Other(s[2..])
    else Other(s[1..])
  }

  function OtherQuoted(quote: char, s: string): nat
    decreases |s|
  {
    if s == [] then 0
    else if s[0] == quote then Other(s[1..])
    else if s[0] == '\\' && quote == '"' then
      if |s| == 1 then 0 else OtherQuoted(quote, s[2..])
    else OtherQuoted(quote, s[1..])
  }

  lemma {:induction false} SkipCounts(c: char, s: string)
    requires s != [] && s[0] == '#'
    ensures N(c, SkipComment(s)) + B(c == '#') <= N(c, s)
  {
    NCons(c, s);
    SkipSuffix(c, s[1..]);
  }

  lemma {:induction false} SkipSuffix(c: char, s: string)
    ensures N(c, SkipComment(s)) <= N(c, s)
    decreases |s|
  {
    if s != [] && s[0] != '\n' {
      NCons(c, s);
      SkipSuffix(c, s[1..]);
    }
  }

  lemma {:induction false} NTwo(c: char, s: string)
    requires |s| >= 2
    ensures N(c, s) == B(s[0] == c) + B(s[1] == c) + N(c, s[2..])
  {
    NCons(c, s);
    NCons(c, s[1..]);
    assert s[1..][1..] == s[2..];
  }

  ghost predicate Conserves(c: char, r: Result<seq<Command>>, drop: nat, had: nat) {
    r.Ok? ==> CN(c, Fields(r.value)) + drop <= had
  }

  /** Nothing is read that was not there: what is read and what is dropped are at
      most what was held and what was to come. */
  lemma {:induction false} ScanConserves(c: char, s: string, st: Scanner)
    ensures Conserves(c, Scan(s, st), Drop(c, s), HN(c, st) + N(c, s))
    decreases |s|
  {
    HoldsCommand(c, st);
    HoldsToken(c, st);
    if s != [] {
      NCons(c, s);
      var x := s[0];
      HoldsPush(c, st, x);
      if x == ' ' || x == '\t' || x == '\r' {
        ScanConserves(c, s[1..], st.FinishToken());
      } else if x == '\n' || x == ';' {
        var st' := if x == '\n' then st.FinishCommand().Newline() else st.FinishCommand();
        ScanConserves(c, s[1..], st'.(commandLine := st'.line));
      } else if x == '#' {
        SkipCounts(c, s);
        ScanConserves(c, SkipComment(s), st.FinishCommand());
      } else if x == '\'' || x == '"' {
        QuotedConserves(c, x, s[1..], st.Begin());
      } else if x == '\\' {
        if |s| > 1 {
          NTwo(c, s);
          HoldsPush(c, st, s[1]);
          ScanConserves(c, s[2..], if s[1] == '\n' then st.Begin().Newline() else st.Push(s[1]));
        }
      } else {
        ScanConserves(c, s[1..], st.Push(x));
      }
    }
  }

  lemma {:induction false} QuotedConserves(c: char, quote: char, s: string, st: Scanner)
    ensures Conserves(c, ScanQuoted(quote, s, st), DropQuoted(c, quote, s), HN(c, st) + N(c, s))
    decreases |s|
  {
    if s != [] {
      NCons(c, s);
      HoldsPush(c, st, s[0]);
      if s[0] == quote {
        ScanConserves(c, s[1..], st);
      } else if s[0] == '\\' && quote == '"' {
        if |s| > 1 {
          NTwo(c, s);
          HoldsPush(c, st, s[1]);
          QuotedConserves(c, quote, s[2..], if s[1] == '\n' then st.Newline() else st.Push(s[1]));
        }
      } else {
        QuotedConserves(c, quote, s[1..], st.PushCounting(s[0]));
      }
    }
  }

  /** Without double quotes, every single quote that is read took a backslash. */
  lemma {:induction false} ScanQuotes(s: string, st: Scanner)
    requires Drop('"', s) == 0
    ensures Conserves('\'', Scan(s, st), Other(s), HN('\'', st) + Drop('\\', s))
    decreases |s|
  {
    var c := '\'';
    HoldsCommand(c, st);
    HoldsToken(c, st);
    if s != [] {
      var x := s[0];
      HoldsPush(c, st, x);
      if x == ' ' || x == '\t' || x == '\r' {
        ScanQuotes(s[1..], st.FinishToken());
      } else if x == '\n' || x == ';' {
        var st' := if x == '\n' then st.FinishCommand().Newline() else st.FinishCommand();
        ScanQuotes(s[1..], st'.(commandLine := st'.line));
      } else if x == '#' {
        ScanQuotes(SkipComment(s), st.FinishCommand());
      } else if x == '\'' {
        QuotedQuotes(s[1..], st.Begin());
      } else if x == '\\' {
        EscapedQuotes(s, st);
      } else {
        assert x != '"';
        ScanQuotes(s[1..], st.Push(x));
      }
    }
  }

  lemma {:induction false} EscapedQuotes(s: string, st: Scanner)
    requires s != [] && s[0] == '\\' && Drop('"', s) == 0
    ensures Conserves('\'', Scan(s, st), Other(s), HN('\'', st) + Drop('\\', s))
    decreases |s|, 0
  {
    if |s| > 1 {
      HoldsPush('\'', st, s[1]);
      ScanQuotes(s[2..], if s[1] == '\n' then st.Begin().Newline() else st.Push(s[1]));
    }
  }

  lemma {:induction false} QuotedQuotes(s: string, st: Scanner)
    requires DropQuoted('"', '\'', s) == 0
    ensures Conserves('\'', ScanQuoted('\'', s, st), OtherQuoted('\'', s), HN('\'', st) + DropQuoted('\\', '\'', s))
    decreases |s|
  {
    if s != [] {
      HoldsPush('\'', st, s[0]);
      if s[0] == '\'' { ScanQuotes(s[1..], st); } else { QuotedQuotes(s[1..], st.PushCounting(s[0])); }
    }
  }

  // -------------------------------------------------------- printed lines

  /** A printed line, or the empty line after a section. */
  datatype Item = Row(keyword: string, word: string, val: string) | Gap

  function ItemText(i: Item): string {
    match i
    case Row(k, w, v) => (if k == "config" then "" else "\t") + Line(k, w, v)
    case Gap => "\n"
  }

  function Text(items: seq<Item>): string { if items == [] then "" else ItemText(items[0]) + Text(items[1..]) }

  function Content(items: seq<Item>): seq<seq<string>> {
    if items == [] then []
    else ContentOf(items[0]) + Content(items[1..])
  }

  ghost function OptionRows(ks: seq<string>, m: map<string, string>): seq<Item>
    requires forall k :: k in ks ==> k in m
  {
    if ks == [] then [] else [Row("option", ks[0], m[ks[0]])] + OptionRows(ks[1..], m)
  }

  function ValueRows(key: string, vs: seq<string>): seq<Item> {
    if vs == [] then [] else [Row("list", key, vs[0])] + ValueRows(key, vs[1..])
  }

  ghost function ListRows(ks: seq<string>, m: map<string, seq<string>>): seq<Item>
    requires forall k :: k in ks ==> k in m
  {
    if ks == [] then [] else ValueRows(ks[0], m[ks[0]]) + ListRows(ks[1..], m)
  }

  ghost function SectionItems(s: Section): seq<Item> {
    [Row("config", s.typ, s.name)]
    + (OptionRows(Sorted(s.options.Keys), s.options) + (ListRows(Sorted(s.lists.Keys), s.lists) + [Gap]))
  }

  ghost function Items(doc: seq<Section>): seq<Item> {
    if doc == [] then [] else SectionItems(doc[0]) + Items(doc[1..])
  }

  predicate Keyword(k: string) { k == "config" || k == "option" || k == "list" }

  predicate Proper(items: seq<Item>) { forall i :: 0 <= i < |items| && items[i].Row? ==> Keyword(items[i].keyword) }

  lemma {:induction false} TextCat(a: seq<Item>, b: seq<Item>)
    ensures Text(a + b) == Text(a) + Text(b)
    decreases |a|
  {
    if a == [] {
      assert a + b == b;
    } else {
      assert (a + b)[0] == a[0] && (a + b)[1..] == a[1..] + b;
      TextCat(a[1..], b);
      Regrouped(ItemText(a[0]), Text(a[1..]), Text(b));
    }
  }

  lemma {:induction false} Regrouped(a: string, b: string, c: string)
    ensures a + (b + c) == a + b + c
  {}

  function ContentOf(i: Item): seq<seq<string>> { if i.Row? then [[i.keyword, i.word, i.val]] else [] }

  lemma {:induction false} ContentCat(a: seq<Item>, b: seq<Item>)
    ensures Content(a + b) == Content(a) + Content(b)
    decreases |a|
  {
    if a == [] {
      assert a + b == b;
    } else {
      assert (a + b)[0] == a[0] && (a + b)[1..] == a[1..] + b;
      ContentCat(a[1..], b);
    }
  }

  lemma {:induction false} ContentOne(i: Item)
    ensures Content([i]) == ContentOf(i)
  {
    assert [i][1..] == [] && Content([]) == [] && ContentOf(i) + [] == ContentOf(i);
  }

  lemma {:induction false} TextOne(i: Item)
    ensures Text([i]) == ItemText(i)
  {
    assert [i][1..] == [] && Text([]) == "" && ItemText(i) + "" == ItemText(i);
  }

  lemma {:induction false} OptionRowsText(ks: seq<string>, m: map<string, string>)
    requires forall k :: k in ks ==> k in m
    ensures Text(OptionRows(ks, m)) == OptionLines(ks, m) && Proper(OptionRows(ks, m))
    decreases |ks|
  {
    if ks != [] {
      var r := Row("option", ks[0], m[ks[0]]);
      OptionRowsText(ks[1..], m);
      TextCat([r], OptionRows(ks[1..], m));
      TextOne(r);
    }
  }

  lemma {:induction false} ValueRowsText(key: string, vs: seq<string>)
    ensures Text(ValueRows(key, vs)) == ValueLines(key, vs) && Proper(ValueRows(key, vs))
    decreases |vs|
  {
    if vs != [] {
      var r := Row("list", key, vs[0]);
      ValueRowsText(key, vs[1..]);
      TextCat([r], ValueRows(key, vs[1..]));
      TextOne(r);
    }
  }

  lemma {:induction false} ListRowsText(ks: seq<string>, m: map<string, seq<string>>)
    requires forall k :: k in ks ==> k in m
    ensures Text(ListRows(ks, m)) == ListLines(ks, m) && Proper(ListRows(ks, m))
    decreases |ks|
  {
    if ks != [] {
      ValueRowsText(ks[0], m[ks[0]]);
      ListRowsText(ks[1..], m);
      TextCat(ValueRows(ks[0], m[ks[0]]), ListRows(ks[1..], m));
    }
  }

  lemma {:induction false} TextFour(h: Item, o: seq<Item>, l: seq<Item>, g: Item)
    ensures Text([h] + (o + (l + [g]))) == ItemText(h) + (Text(o) + (Text(l) + ItemText(g)))
  {
    TextOne(h);
    TextOne(g);
    TextCat(l, [g]);
    TextCat(o, l + [g]);
    TextCat([h], o + (l + [g]));
  }

  lemma {:induction false} SectionText(s: Section)
    ensures Text(SectionItems(s)) == PrintSection(s) && Proper(SectionItems(s))
  {
    var h := Row("config", s.typ, s.name);
    var oks, lks := Sorted(s.options.Keys), Sorted(s.lists.Keys);
    OptionRowsText(oks, s.options);
    ListRowsText(lks, s.lists);
    ProperFour(h, OptionRows(oks, s.options), ListRows(lks, s.lists));
    TextFour(h, OptionRows(oks, s.options), ListRows(lks, s.lists), Gap);
    HeaderText(s.typ, s.name);
    Reassociate(Line("config", s.typ, s.name), OptionLines(oks, s.options), ListLines(lks, s.lists), "\n");
  }

  lemma {:induction false} ProperFour(h: Item, o: seq<Item>, l: seq<Item>)
    requires h.Row? && Keyword(h.keyword) && Proper(o) && Proper(l)
    ensures Proper([h] + (o + (l + [Gap])))
  {}

  lemma {:induction false} HeaderText(t: string, n: string)
    ensures ItemText(Row("config", t, n)) == Line("config", t, n)
  {
    assert "" + Line("config", t, n) == Line("config", t, n);
  }

  lemma {:induction false} Reassociate(a: string, b: string, c: string, d: string)
    ensures a + (b + (c + d)) == a + b + c + d
  {}

  lemma {:induction false} PrintText(doc: seq<Section>)
    ensures Text(Items(doc)) == Print(doc) && Proper(Items(doc))
    decreases |doc|
  {
    if doc != [] {
      SectionText(doc[0]);
      PrintText(doc[1..]);
      TextCat(SectionItems(doc[0]), Items(doc[1..]));
    }
  }

  // ------------------------------------------------- what printing adds

  function Over(c: char, i: Item): nat {
    match i
    case Gap => B(c == '\n')
    case Row(k, w, v) =>
      2 * B(c == ' ') + B(c == '\n') + B(c == '\t' && k != "config")
      + (if c == '\'' then 2 + 2 * N('\'', v) else 0) + (if c == '\\' then N('\'', v) else 0)
  }

  function Overhead(c: char, items: seq<Item>): nat {
    if items == [] then 0 else Over(c, items[0]) + Overhead(c, items[1..])
  }

  lemma {:induction false} HeadCount(c: char, x: char)
    ensures N(c, if x == '\'' then "'\\''" else [x]) ==
            B(x == c) + (if x == c == '\'' then 2 else 0) + (if x == '\'' && c == '\\' then 1 else 0)
  {}

  lemma {:induction false} EscapeCount(c: char, v: string)
    ensures N(c, Escape(v)) ==
            N(c, v) + (if c == '\'' then 2 * N('\'', v) else 0) + (if c == '\\' then N('\'', v) else 0)
    decreases |v|
  {
    if v != [] {
      NCons(c, v);
      NCons('\'', v);
      EscapeCount(c, v[1..]);
      var h := if v[0] == '\'' then "'\\''" else [v[0]];
      HeadCount(c, v[0]);
      assert Escape(v) == h + Escape(v[1..]);
    }
  }

  lemma {:induction false} LineCount(c: char, k: string, w: string, v: string)
    ensures N(c, Line(k, w, v)) ==
            N(c, k) + N(c, w) + N(c, v)
            + 2 * B(c == ' ') + B(c == '\n')
            + (if c == '\'' then 2 + 2 * N('\'', v) else 0) + (if c == '\\' then N('\'', v) else 0)
  {
    EscapeCount(c, v);
    assert N(c, " '") == B(c == ' ') + B(c == '\'') && N(c, "'\n") == B(c == '\'') + B(c == '\n')
           && N(c, " ") == B(c == ' ');
    assert N(c, k + " " + w + " '" + Escape(v) + "'\n") ==
           N(c, k) + N(c, " ") + N(c, w) + N(c, " '") + N(c, Escape(v)) + N(c, "'\n");
  }

  lemma {:induction false} RowContent(c: char, k: string, w: string, v: string)
    ensures CN(c, [[k, w, v]]) == N(c, k) + N(c, w) + N(c, v)
  {
    var f := [k, w, v];
    CNOne(c, f);
    assert f[1..] == [w, v] && f[1..][1..] == [v] && f[1..][1..][1..] == [];
    assert FN(c, [w, v]) == N(c, w) + FN(c, [v]) && FN(c, [v]) == N(c, v) + FN(c, []);
  }

  lemma {:induction false} TabCount(c: char, header: bool, line: string)
    ensures N(c, (if header then "" else "\t") + line) == B(c == '\t' && !header) + N(c, line)
  {}

  lemma {:induction false} ItemCount(c: char, i: Item)
    ensures N(c, ItemText(i)) == CN(c, ContentOf(i)) + Over(c, i)
  {
    match i
    case Gap => assert N(c, "\n") == B(c == '\n') && CN(c, []) == 0;
    case Row(k, w, v) =>
      LineCount(c, k, w, v);
      RowContent(c, k, w, v);
      TabCount(c, k == "config", Line(k, w, v));
  }

  lemma {:induction false} TextCount(c: char, items: seq<Item>)
    ensures N(c, Text(items)) == CN(c, Content(items)) + Overhead(c, items)
    decreases |items|
  {
    if items != [] {
      ItemCount(c, items[0]);
      TextCount(c, items[1..]);
      CNCat(c, ContentOf(items[0]), Content(items[1..]));
      assert N(c, ItemText(items[0]) + Text(items[1..])) == N(c, ItemText(items[0])) + N(c, Text(items[1..]));
    }
  }

  // ---------------------------------------- reading back as many commands

  /** How often a document has a line with these three fields. */
  function SecMult(s: Section, f: seq<string>): nat {
    B(f == ["config", s.typ, s.name])
    + B(|f| == 3 && f[0] == "option" && f[1] in s.options && s.options[f[1]] == f[2])
    + (if |f| == 3 && f[0] == "list" && f[1] in s.lists then multiset(s.lists[f[1]])[f[2]] else 0)
  }

  function Mult(doc: seq<Section>, f: seq<string>): nat {
    if doc == [] then 0 else Mult(doc[..|doc| - 1], f) + SecMult(doc[|doc| - 1], f)
  }

  lemma {:induction false} MultCons(s: Section, rest: seq<Section>, f: seq<string>)
    ensures Mult([s] + rest, f) == SecMult(s, f) + Mult(rest, f)
    decreases |rest|
  {
    var all := [s] + rest;
    if rest == [] {
      assert all[..0] == [] && all[0] == s;
    } else {
      var n := |rest| - 1;
      assert all[..|all| - 1] == [s] + rest[..n] && all[|all| - 1] == rest[n];
      MultCons(s, rest[..n], f);
    }
  }

  /** A config command without a name has an empty one. */
  function Norm(f: seq<string>): seq<string> { if |f| == 2 then f + [""] else f }

  function NormAll(cs: seq<seq<string>>): seq<seq<string>> { if cs == [] then [] else [Norm(cs[0])] + NormAll(cs[1..]) }

  lemma {:induction false} NormCount(c: char, cs: seq<seq<string>>)
    ensures CN(c, NormAll(cs)) == CN(c, cs)
    decreases |cs|
  {
    if cs != [] {
      NormCount(c, cs[1..]);
      CNCat(c, [Norm(cs[0])], NormAll(cs[1..]));
      CNOne(c, Norm(cs[0]));
      FNSnoc(c, cs[0], "");
    }
  }

  lemma {:induction false} OptionMult(s: Section, key: string, val: string, f: seq<string>)
    ensures SecMult(AddOption(s, key, val), f) <= SecMult(s, f) + B(f == ["option", key, val])
  {}

  lemma {:induction false} ListMult(s: Section, key: string, val: string, f: seq<string>)
    ensures SecMult(AddToList(s, key, val), f) <= SecMult(s, f) + B(f == ["list", key, val])
  {
    if |f| == 3 && f[0] == "list" && f[1] == key {
      var before := if key in s.lists then s.lists[key] else [];
      assert multiset(before + [val])[f[2]] == multiset(before)[f[2]] + B(f[2] == val);
      assert f == ["list", key, f[2]];
    }
  }

  lemma {:induction false} LastMult(doc: seq<Section>, s: Section, f: seq<string>)
    requires doc != []
    ensures Mult(doc[|doc| - 1 := s], f) == Mult(doc[..|doc| - 1], f) + SecMult(s, f)
  {
    var d := doc[|doc| - 1 := s];
    assert d[..|d| - 1] == doc[..|doc| - 1] && d[|d| - 1] == s;
  }

  lemma {:induction false} ApplyMult(g: seq<string>, doc: seq<Section>, f: seq<string>)
    requires ApplyCommand(g, doc).Next?
    ensures Mult(ApplyCommand(g, doc).doc, f) <= Mult(doc, f) + B(f == Norm(g))
  {
    if g[0] == "config" {
      var s := Section(g[1], if |g| == 3 then g[2] else "", map[], map[]);
      assert Norm(g) == ["config", s.typ, s.name];
      assert (doc + [s])[..|doc|] == doc;
    } else {
      var cur := doc[|doc| - 1];
      assert g == [g[0], g[1], g[2]];
      OptionMult(cur, g[1], g[2], f);
      ListMult(cur, g[1], g[2], f);
      LastMult(doc, if g[0] == "option" then AddOption(cur, g[1], g[2]) else AddToList(cur, g[1], g[2]), f);
    }
  }

  /** Every line of the document that was read came from a command of its own. */
  lemma {:induction false} InterpretMult(cmds: seq<Command>, doc: seq<Section>, end: seq<Section>, f: seq<string>)
    requires Interpret(cmds, doc) == Ok(end)
    ensures Mult(end, f) <= Mult(doc, f) + multiset(NormAll(Fields(cmds)))[f]
    decreases |cmds|
  {
    if cmds != [] {
      var g, rest := cmds[0].fields, cmds[1..];
      ApplyMult(g, doc, f);
      InterpretMult(rest, ApplyCommand(g, doc).doc, end, f);
      assert Fields(cmds)[0] == g && Fields(cmds)[1..] == Fields(rest);
      assert multiset([Norm(g)] + NormAll(Fields(rest)))[f] == B(f == Norm(g)) + multiset(NormAll(Fields(rest)))[f];
    }
  }

  lemma {:induction false} BagCons(x: seq<string>, cs: seq<seq<string>>, f: seq<string>)
    ensures multiset([x] + cs)[f] == B(f == x) + multiset(cs)[f]
  {}

  predicate IsOption(f: seq<string>, ks: seq<string>, m: map<string, string>)
    requires forall k :: k in ks ==> k in m
  {
    |f| == 3 && f[0] == "option" && f[1] in ks && m[f[1]] == f[2]
  }

  lemma {:induction false} IsOptionCons(ks: seq<string>, m: map<string, string>, f: seq<string>)
    requires (forall k :: k in ks ==> k in m) && (forall i, j :: 0 <= i < j < |ks| ==> ks[i] != ks[j]) && ks != []
    ensures B(IsOption(f, ks, m)) == B(f == ["option", ks[0], m[ks[0]]]) + B(IsOption(f, ks[1..], m))
  {
    assert ks[0] !in ks[1..];
    assert ks == [ks[0]] + ks[1..];
    if |f| == 3 { assert f == [f[0], f[1], f[2]]; }
  }

  lemma {:induction false} OptionRowsMult(ks: seq<string>, m: map<string, string>, f: seq<string>)
    requires (forall k :: k in ks ==> k in m) && (forall i, j :: 0 <= i < j < |ks| ==> ks[i] != ks[j])
    ensures multiset(Content(OptionRows(ks, m)))[f] == B(IsOption(f, ks, m))
    decreases |ks|
  {
    if ks != [] {
      var r, rest := Row("option", ks[0], m[ks[0]]), OptionRows(ks[1..], m);
      OptionRowsMult(ks[1..], m, f);
      ContentCat([r], rest);
      ContentOne(r);
      BagCons(["option", ks[0], m[ks[0]]], Content(rest), f);
      IsOptionCons(ks, m, f);
    }
  }

  function IsValue(f: seq<string>, key: string, vs: seq<string>): nat {
    if |f| == 3 && f[0] == "list" && f[1] == key then multiset(vs)[f[2]] else 0
  }

  lemma {:induction false} IsValueCons(key: string, vs: seq<string>, f: seq<string>)
    requires vs != []
    ensures IsValue(f, key, vs) == B(f == ["list", key, vs[0]]) + IsValue(f, key, vs[1..])
  {
    assert vs == [vs[0]] + vs[1..];
    if |f| == 3 { assert f == [f[0], f[1], f[2]]; }
  }

  lemma {:induction false} ValueRowsMult(key: string, vs: seq<string>, f: seq<string>)
    ensures multiset(Content(ValueRows(key, vs)))[f] == IsValue(f, key, vs)
    decreases |vs|
  {
    if vs != [] {
      var r, rest := Row("list", key, vs[0]), ValueRows(key, vs[1..]);
      ValueRowsMult(key, vs[1..], f);
      ContentCat([r], rest);
      ContentOne(r);
      BagCons(["list", key, vs[0]], Content(rest), f);
      IsValueCons(key, vs, f);
    }
  }

  lemma {:induction false} ListRowsMult(ks: seq<string>, m: map<string, seq<string>>, f: seq<string>)
    requires (forall k :: k in ks ==> k in m) && (forall i, j :: 0 <= i < j < |ks| ==> ks[i] != ks[j])
    ensures multiset(Content(ListRows(ks, m)))[f] ==
            if |f| == 3 && f[0] == "list" && f[1] in ks then multiset(m[f[1]])[f[2]] else 0
    decreases |ks|
  {
    if ks != [] {
      ValueRowsMult(ks[0], m[ks[0]], f);
      ListRowsMult(ks[1..], m, f);
      ContentCat(ValueRows(ks[0], m[ks[0]]), ListRows(ks[1..], m));
      assert ks[0] !in ks[1..];
      assert forall k :: k in ks <==> k == ks[0] || k in ks[1..];
    }
  }

  lemma {:induction false} SectionMult(s: Section, f: seq<string>)
    ensures multiset(Content(SectionItems(s)))[f] == SecMult(s, f)
  {
    var h := Row("config", s.typ, s.name);
    var o, l := OptionRows(Sorted(s.options.Keys), s.options), ListRows(Sorted(s.lists.Keys), s.lists);
    AscendingDistinct(Sorted(s.options.Keys));
    AscendingDistinct(Sorted(s.lists.Keys));
    OptionRowsMult(Sorted(s.options.Keys), s.options, f);
    ListRowsMult(Sorted(s.lists.Keys), s.lists, f);
    ContentFour(h, o, l, f);
  }

  lemma {:induction false} ContentFour(h: Item, o: seq<Item>, l: seq<Item>, f: seq<string>)
    requires h.Row?
    ensures multiset(Content([h] + (o + (l + [Gap]))))[f] ==
            B(f == [h.keyword, h.word, h.val]) + multiset(Content(o))[f] + multiset(Content(l))[f]
  {
    ContentOne(h);
    ContentOne(Gap);
    ContentCat(l, [Gap]);
    ContentCat(o, l + [Gap]);
    ContentCat([h], o + (l + [Gap]));
    assert Content(l) + [] == Content(l);
  }

  lemma {:induction false} DocMult(doc: seq<Section>, f: seq<string>)
    ensures multiset(Content(Items(doc)))[f] == Mult(doc, f)
    decreases |doc|
  {
    if doc != [] {
      SectionMult(doc[0], f);
      DocMult(doc[1..], f);
      ContentCat(SectionItems(doc[0]), Items(doc[1..]));
      MultCons(doc[0], doc[1..], f);
      assert doc == [doc[0]] + doc[1..];
    }
  }

  /** A document that was read has at most the characters of the commands read. */
  lemma {:induction false} ReadCounts(c: char, cmds: seq<Command>, doc: seq<Section>)
    requires Interpret(cmds, []) == Ok(doc)
    ensures CN(c, Content(Items(doc))) <= CN(c, Fields(cmds))
  {
    forall f ensures multiset(Content(Items(doc)))[f] <= multiset(NormAll(Fields(cmds)))[f] {
      DocMult(doc, f);
      InterpretMult(cmds, [], doc, f);
    }
    CNBag(c, Content(Items(doc)), NormAll(Fields(cmds)));
    NormCount(c, Fields(cmds));
  }

  // ------------------------------------------- reading drops what was added

  /** No more of a character is dropped than printing added. */
  lemma {:induction false} DropBound(c: char, doc: seq<Section>)
    requires Parse(Print(doc)) == Ok(doc)
    ensures Drop(c, Print(doc)) <= Overhead(c, Items(doc))
  {
    var text, cmds := Print(doc), Scan(Print(doc), START).value;
    PrintText(doc);
    TextCount(c, Items(doc));
    ScanConserves(c, text, START);
    ReadCounts(c, cmds, doc);
    StartHoldsNothing(c);
  }

  lemma {:induction false} StartHoldsNothing(c: char)
    ensures HN(c, START) == 0
  {
    assert Fields(START.commands) == [];
  }

  /** The characters of the words alone. */
  function WN(c: char, items: seq<Item>): nat {
    if items == [] then 0 else (if items[0].Row? then N(c, items[0].word) else 0) + WN(c, items[1..])
  }

  lemma {:induction false} KeywordCount(k: string)
    requires Keyword(k)
    ensures N('\'', k) == 0 && N(' ', k) == 0 && N('\t', k) == 0 && N('\n', k) == 0
  {
    Keywords();
    HasNone('\'', k);
    HasNone(' ', k);
    HasNone('\t', k);
    HasNone('\n', k);
  }

  lemma {:induction false} HasNone(c: char, s: string)
    requires Word(s) && !Plain(c)
    ensures N(c, s) == 0
  {
    assert c !in s;
  }

  /** Of the quotes in the content, those in values each cost a backslash. */
  lemma {:induction false} QuoteCount(items: seq<Item>)
    requires Proper(items)
    ensures CN('\'', Content(items)) == WN('\'', items) + Overhead('\\', items)
    decreases |items|
  {
    if items != [] {
      var i, rest := items[0], items[1..];
      QuoteCount(rest);
      CNCat('\'', ContentOf(i), Content(rest));
      if i.Row? {
        KeywordCount(i.keyword);
        RowContent('\'', i.keyword, i.word, i.val);
      }
    }
  }

  /** What reading a document that survives never does: take a double quote, a
      semicolon, a comment sign or a carriage return for anything but itself, or
      escape anything but a quote. */
  predicate Mildly(s: string) {
    Drop('"', s) == 0 && Drop(';', s) == 0 && Drop('#', s) == 0 && Drop('\r', s) == 0 && Other(s) == 0
  }

  lemma {:induction false} NoOverhead(c: char, items: seq<Item>)
    requires c in {'"', ';', '#', '\r'}
    ensures Overhead(c, items) == 0
    decreases |items|
  {
    if items != [] { NoOverhead(c, items[1..]); }
  }

  lemma {:induction false} ReadMildly(doc: seq<Section>)
    requires Parse(Print(doc)) == Ok(doc)
    ensures Mildly(Print(doc)) && WN('\'', Items(doc)) == 0
  {
    var items, text, cmds := Items(doc), Print(doc), Scan(Print(doc), START).value;
    NeverDropped('"', doc);
    NeverDropped(';', doc);
    NeverDropped('#', doc);
    NeverDropped('\r', doc);
    DropBound('\\', doc);
    PrintText(doc);
    ScanQuotes(text, START);
    StartHoldsNothing('\'');
    ReadCounts('\'', cmds, doc);
    QuoteCount(items);
  }

  lemma {:induction false} NeverDropped(c: char, doc: seq<Section>)
    requires c in {'"', ';', '#', '\r'} && Parse(Print(doc)) == Ok(doc)
    ensures Drop(c, Print(doc)) == 0
  {
    DropBound(c, doc);
    NoOverhead(c, Items(doc));
  }

  // --------------------------------------------------- line by line

  predicate White(c: char) { c == ' ' || c == '\t' || c == '\n' }

  predicate Mild(u: string) { forall i :: 0 <= i < |u| ==> Plain(u[i]) || White(u[i]) }

  function WhiteN(c: char, u: string): nat { if White(c) then N(c, u) else 0 }

  /** Outside quotes, plain characters are kept and white ones dropped. */
  lemma {:induction false} MildDrop(c: char, u: string, rest: string)
    requires Mild(u) && c != '\''
    ensures Drop(c, u + rest) == WhiteN(c, u) + Drop(c, rest) && Other(u + rest) == Other(rest)
    decreases |u|
  {
    if u == [] {
      assert u + rest == rest;
    } else {
      assert (u + rest)[0] == u[0] && (u + rest)[1..] == u[1..] + rest;
      NCons(c, u);
      MildDrop(c, u[1..], rest);
    }
  }

  /** Outside quotes a backslash in a word without quotes escapes something else. */
  lemma {:induction false} BackslashCosts(w: string, rest: string)
    requires w != [] && w[0] == '\\' && N('\'', w) == 0
    ensures Other(w + (" " + rest)) >= 1
  {
    var s := w + (" " + rest);
    assert s[0] == '\\' && s[1] == if |w| > 1 then w[1] else ' ';
    if |w| > 1 { NTwo('\'', w); }
  }

  lemma {:induction false} MildWord(w: string, rest: string)
    requires N('\'', w) == 0 && Mildly(w + (" " + rest))
    ensures Mild(w)
    decreases |w|
  {
    if w != [] {
      var s := w + (" " + rest);
      assert s[0] == w[0] && s[1..] == w[1..] + (" " + rest);
      NCons('\'', w);
      if w[0] == '\\' { BackslashCosts(w, rest); } else { MildWord(w[1..], rest); }
    }
  }

  /** A quoted value drops nothing but quotes and backslashes. */
  lemma {:induction false} QuotedDrop(c: char, v: string, rest: string)
    requires c != '\'' && c != '\\'
    ensures DropQuoted(c, '\'', Escape(v) + "'" + rest) == Drop(c, rest)
    ensures OtherQuoted('\'', Escape(v) + "'" + rest) == Other(rest)
    decreases |v|
  {
    var text := Escape(v) + "'" + rest;
    if v == [] {
      assert text == "'" + rest && text[1..] == rest;
    } else {
      var tail := Escape(v[1..]) + "'" + rest;
      QuotedDrop(c, v[1..], rest);
      if v[0] == '\'' {
        assert text == "'\\''" + tail;
        QuoteInside(c, tail);
      } else {
        assert text == [v[0]] + tail && text[1..] == tail;
      }
    }
  }

  lemma {:induction false} QuoteInside(c: char, tail: string)
    requires c != '\'' && c != '\\'
    ensures DropQuoted(c, '\'', "'\\''" + tail) == DropQuoted(c, '\'', tail)
    ensures OtherQuoted('\'', "'\\''" + tail) == OtherQuoted('\'', tail)
  {
    var text := "'\\''" + tail;
    var t1, t2, t3 := text[1..], text[3..], text[4..];
    assert t1[0] == '\\' && t1[1] == '\'' && t1[2..] == t2 && t2[0] == '\'' && t2[1..] == t3 == tail;
    assert DropQuoted(c, '\'', text) == Drop(c, t1) == Drop(c, t2) == DropQuoted(c, '\'', t3);
    assert OtherQuoted('\'', text) == Other(t1) == Other(t2) == OtherQuoted('\'', t3);
  }

  /** A row up to its quoted value. */
  function Lead(k: string, w: string): string { (if k == "config" then "" else "\t") + k + " " + w + " " }

  lemma {:induction false} RowText(k: string, w: string, v: string, rest: string)
    ensures ItemText(Row(k, w, v)) + rest == Lead(k, w) + ("'" + (Escape(v) + "'" + ("\n" + rest)))
  {
    Regrouped7(if k == "config" then "" else "\t", k, w, Escape(v), rest);
  }

  lemma {:induction false} Regrouped7(t: string, k: string, w: string, e: string, rest: string)
    ensures t + (k + " " + w + " '" + e + "'\n") + rest == (t + k + " " + w + " ") + ("'" + (e + "'" + ("\n" + rest)))
  {}

  lemma {:induction false} LeadMild(k: string, w: string)
    requires Keyword(k) && Mild(w)
    ensures Mild(Lead(k, w))
  {}

  lemma {:induction false} LeadCount(c: char, k: string, w: string)
    requires Keyword(k) && White(c)
    ensures N(c, Lead(k, w)) == N(c, w) + 2 * B(c == ' ') + B(c == '\t' && k != "config")
  {
    KeywordCount(k);
    TabCount(c, k == "config", k + " " + w + " ");
    Regrouped4(if k == "config" then "" else "\t", k, w);
    SpacedCount(c, k, w);
  }

  lemma {:induction false} Regrouped4(t: string, k: string, w: string)
    ensures t + k + " " + w + " " == t + (k + " " + w + " ")
  {}

  lemma {:induction false} SpacedCount(c: char, k: string, w: string)
    ensures N(c, k + " " + w + " ") == N(c, k) + N(c, w) + 2 * B(c == ' ')
  {
    assert N(c, " ") == B(c == ' ');
  }

  lemma {:induction false} RowDrop(c: char, k: string, w: string, v: string, rest: string, s: string)
    requires Keyword(k) && Mild(w) && c != '\'' && c != '\\'
    requires s == Lead(k, w) + ("'" + (Escape(v) + "'" + ("\n" + rest)))
    ensures Drop(c, s) == WhiteN(c, Lead(k, w)) + B(c == '\n') + Drop(c, rest)
    ensures Other(s) == Other(rest)
  {
    LeadMild(k, w);
    ValueDrop(c, v, rest);
    MildDrop(c, Lead(k, w), "'" + (Escape(v) + "'" + ("\n" + rest)));
  }

  lemma {:induction false} ValueDrop(c: char, v: string, rest: string)
    requires c != '\'' && c != '\\'
    ensures var value := "'" + (Escape(v) + "'" + ("\n" + rest));
            Drop(c, value) == B(c == '\n') + Drop(c, rest) && Other(value) == Other(rest)
  {
    var eol := "\n" + rest;
    var quoted := Escape(v) + "'" + eol;
    var value := "'" + quoted;
    assert value[1..] == quoted && eol[1..] == rest;
    QuotedDrop(c, v, eol);
  }

  lemma {:induction false} MildlyRow(k: string, w: string, v: string, rest: string)
    requires Keyword(k) && N('\'', w) == 0 && Mildly(ItemText(Row(k, w, v)) + rest)
    ensures Mild(w)
  {
    var head := (if k == "config" then "" else "\t") + k + " ";
    var tail := "'" + (Escape(v) + "'" + ("\n" + rest));
    RowText(k, w, v, rest);
    Regrouped6(if k == "config" then "" else "\t", k, w, tail);
    HeadMild(k);
    MildlyAfter(head, w + (" " + tail));
    MildWord(w, tail);
  }

  lemma {:induction false} Regrouped6(t: string, k: string, w: string, tail: string)
    ensures t + k + " " + w + " " + tail == (t + k + " ") + (w + (" " + tail))
  {}

  lemma {:induction false} HeadMild(k: string)
    requires Keyword(k)
    ensures Mild((if k == "config" then "" else "\t") + k + " ")
  {}

  lemma {:induction false} MildlyAfter(head: string, rest: string)
    requires Mild(head) && Mildly(head + rest)
    ensures Mildly(rest)
  {
    MildDrop('"', head, rest);
    MildDrop(';', head, rest);
    MildDrop('#', head, rest);
    MildDrop('\r', head, rest);
  }

  lemma {:induction false} GapDrop(c: char, rest: string)
    ensures Drop(c, "\n" + rest) == B(c == '\n') + Drop(c, rest) && Other("\n" + rest) == Other(rest)
  {
    assert ("\n" + rest)[1..] == rest;
  }

  predicate AllMild(items: seq<Item>) { forall i :: 0 <= i < |items| && items[i].Row? ==> Mild(items[i].word) }

  lemma {:induction false} MildlyGap(rest: string)
    requires Mildly("\n" + rest)
    ensures Mildly(rest)
  {
    GapDrop('"', rest);
    GapDrop(';', rest);
    GapDrop('#', rest);
    GapDrop('\r', rest);
  }

  lemma {:induction false} MildlyValue(v: string, rest: string)
    requires Mildly("'" + (Escape(v) + "'" + ("\n" + rest)))
    ensures Mildly(rest)
  {
    ValueDrop('"', v, rest);
    ValueDrop(';', v, rest);
    ValueDrop('#', v, rest);
    ValueDrop('\r', v, rest);
  }

  lemma {:induction false} MildlyRest(i: Item, rest: string)
    requires (i.Row? ==> Keyword(i.keyword) && Mild(i.word)) && Mildly(ItemText(i) + rest)
    ensures Mildly(rest)
  {
    match i
    case Gap => MildlyGap(rest);
    case Row(k, w, v) =>
      RowText(k, w, v, rest);
      LeadMild(k, w);
      MildlyAfter(Lead(k, w), "'" + (Escape(v) + "'" + ("\n" + rest)));
      MildlyValue(v, rest);
  }

  /** Words without quotes, read mildly, are plain but for white space. */
  lemma {:induction false} WordsMild(items: seq<Item>)
    requires Proper(items) && Mildly(Text(items)) && WN('\'', items) == 0
    ensures AllMild(items)
    decreases |items|
  {
    if items != [] {
      var i, rest := items[0], items[1..];
      if i.Row? { MildlyRow(i.keyword, i.word, i.val, Text(rest)); }
      MildlyRest(i, Text(rest));
      WordsMild(rest);
    }
  }

  /** The lines alone drop all that printing added, and the words what they have. */
  lemma {:induction false} WhiteDropped(c: char, items: seq<Item>)
    requires Proper(items) && AllMild(items) && White(c)
    ensures Drop(c, Text(items)) == Overhead(c, items) + WN(c, items)
    decreases |items|
  {
    if items != [] {
      var i, rest := items[0], items[1..];
      WhiteDropped(c, rest);
      if i.Row? {
        RowText(i.keyword, i.word, i.val, Text(rest));
        RowDrop(c, i.keyword, i.word, i.val, Text(rest), Text(items));
        LeadCount(c, i.keyword, i.word);
      } else {
        GapDrop(c, Text(rest));
      }
    }
  }

  predicate WordsPlain(items: seq<Item>) { forall i :: 0 <= i < |items| && items[i].Row? ==> AllPlain(items[i].word) }

  lemma {:induction false} NoneThere(c: char, items: seq<Item>, i: nat)
    requires WN(c, items) == 0 && i < |items| && items[i].Row?
    ensures c !in items[i].word
    decreases |items|
  {
    if i > 0 { NoneThere(c, items[1..], i - 1); } else { assert N(c, items[0].word) == 0; }
  }

  lemma {:induction false} PlainWords(doc: seq<Section>)
    requires Parse(Print(doc)) == Ok(doc)
    ensures WordsPlain(Items(doc))
  {
    var items := Items(doc);
    ReadMildly(doc);
    PrintText(doc);
    WordsMild(items);
    forall c | White(c) ensures WN(c, items) == 0 {
      DropBound(c, doc);
      WhiteDropped(c, items);
    }
    forall i | 0 <= i < |items| && items[i].Row? ensures AllPlain(items[i].word) {
      NoneThere(' ', items, i);
      NoneThere('\t', items, i);
      NoneThere('\n', items, i);
    }
  }

  // ------------------------------------------------------ empty words

  /** The fields of a line whose word may be empty. */
  function RowFields(i: Item): seq<seq<string>> {
    match i
    case Gap => []
    case Row(k, w, v) => [if w == "" then [k, v] else [k, w, v]]
  }

  function AllFields(items: seq<Item>): seq<seq<string>> {
    if items == [] then [] else RowFields(items[0]) + AllFields(items[1..])
  }

  lemma {:induction false} WordlessText(k: string, e: string, rest: string)
    ensures k + " " + "" + " '" + e + "'\n" + rest == k + " " + (" " + ("'" + e + "'\n" + rest))
  {}

  lemma {:induction false} SkipBlank(text: string, st: Scanner)
    requires st.token.None?
    ensures Scan(" " + text, st) == Scan(text, st)
  {
    assert (" " + text)[1..] == text;
  }

  lemma {:induction false} ScanWordless(k: string, v: string, rest: string, st: Scanner)
    requires Word(k) && AtLineStart(st)
    ensures Scan(Line(k, "", v) + rest, st) == Scan(rest, After(st, [k, v], Newlines(v) + 1))
  {
    var quoted := "'" + Escape(v) + "'\n" + rest;
    WordlessText(k, Escape(v), rest);
    ScanField(k, " " + quoted, st);
    assert st.fields + [k] == [k];
    SkipBlank(quoted, st.(fields := [k]));
    ScanValue(v, rest, st.(fields := [k]));
    assert [k] + [v] == [k, v];
  }

  lemma {:induction false} ScanRow(k: string, w: string, v: string, rest: string, st: Scanner) returns (to: Scanner)
    requires Keyword(k) && AllPlain(w) && AtLineStart(st)
    ensures Scan(ItemText(Row(k, w, v)) + rest, st) == Scan(rest, to) && Read(st, to, RowFields(Row(k, w, v)))
  {
    Keywords();
    var line := Line(k, w, v) + rest;
    SkipTab(k == "config", Line(k, w, v), rest, st);
    if w == "" {
      ScanWordless(k, v, rest, st);
      to := After(st, [k, v], Newlines(v) + 1);
    } else {
      ScanLine(k, w, v, rest, st);
      to := After(st, [k, w, v], Newlines(v) + 1);
    }
  }

  lemma {:induction false} SkipTab(header: bool, line: string, rest: string, st: Scanner)
    requires AtLineStart(st)
    ensures Scan((if header then "" else "\t") + line + rest, st) == Scan(line + rest, st)
  {
    if header {
      assert "" + line + rest == line + rest;
    } else {
      var text := "\t" + line + rest;
      assert text[0] == '\t' && text[1..] == line + rest;
    }
  }

  lemma {:induction false} ScanItems(items: seq<Item>, st: Scanner) returns (to: Scanner)
    requires Proper(items) && WordsPlain(items) && AtLineStart(st)
    ensures Scan(Text(items), st) == Scan("", to) && Read(st, to, AllFields(items))
    decreases |items|
  {
    if items == [] {
      to := st;
    } else {
      var i, rest := items[0], items[1..];
      var mid: Scanner;
      if i.Row? {
        mid := ScanRow(i.keyword, i.word, i.val, Text(rest), st);
      } else {
        mid := ScanBlank(Text(rest), st);
      }
      to := ScanItems(rest, mid);
      ReadThen(st, mid, to, RowFields(i), AllFields(rest));
    }
  }

  lemma {:induction false} BuildsBack(doc: seq<Section>)
    requires Parse(Print(doc)) == Ok(doc) && WordsPlain(Items(doc))
    ensures Build(AllFields(Items(doc)), []) == Some(doc)
  {
    PrintText(doc);
    var to := ScanItems(Items(doc), START);
    ScanEnd(to);
    assert Fields(START.commands) + AllFields(Items(doc)) == AllFields(Items(doc));
    InterpretBuilds(to.commands, []);
  }

  lemma {:induction false} AllFieldsCat(a: seq<Item>, b: seq<Item>)
    ensures AllFields(a + b) == AllFields(a) + AllFields(b)
    decreases |a|
  {
    if a == [] {
      assert a + b == b;
    } else {
      assert (a + b)[0] == a[0] && (a + b)[1..] == a[1..] + b;
      AllFieldsCat(a[1..], b);
    }
  }

  /** Commands other than config leave the types alone. */
  predicate SameTypes(a: seq<Section>, b: seq<Section>) {
    |a| == |b| && forall i :: 0 <= i < |a| ==> a[i].typ == b[i].typ
  }

  /** What follows in a section: option and list rows with a word. */
  predicate InSection(rows: seq<Item>) { forall i :: 0 <= i < |rows| ==>
      rows[i].Row? && rows[i].keyword in {"option", "list"} }

  lemma {:induction false} FieldsRest(rows: seq<Item>, f: seq<string>, more: seq<seq<string>>)
    requires rows != [] && RowFields(rows[0]) == [f]
    ensures var all := AllFields(rows) + more; all != [] && all[0] == f && all[1..] == AllFields(rows[1..]) + more
  {
    ConsRest(f, AllFields(rows[1..]), more);
  }

  lemma {:induction false} ConsRest(f: seq<string>, a: seq<seq<string>>, more: seq<seq<string>>)
    ensures var all := [f] + a + more; all[0] == f && all[1..] == a + more
  {}

  lemma {:induction false} BuildRows(rows: seq<Item>, more: seq<seq<string>>, doc: seq<Section>)
      returns (mid: seq<Section>)
    requires InSection(rows) && Build(AllFields(rows) + more, doc).Some?
    ensures !HasWord(rows, "") && SameTypes(doc, mid)
    ensures Build(AllFields(rows) + more, doc) == Build(more, mid)
    decreases |rows|
  {
    if rows == [] {
      assert AllFields(rows) + more == more;
      mid := doc;
    } else {
      var r, rest := rows[0], rows[1..];
      var f := RowFields(r)[0];
      FieldsRest(rows, f, more);
      var next := ApplyCommand(f, doc);
      assert r.word != "" && SameTypes(doc, next.doc);
      mid := BuildRows(rest, more, next.doc);
    }
  }

  lemma {:induction false} TypesStay(fields: seq<seq<string>>, doc: seq<Section>, end: seq<Section>)
    requires Build(fields, doc) == Some(end)
    ensures |doc| <= |end| && SameTypes(doc, end[..|doc|])
    decreases |fields|
  {
    if fields != [] {
      var next := ApplyCommand(fields[0], doc).doc;
      TypesStay(fields[1..], next, end);
      assert |doc| <= |next| && SameTypes(doc, next[..|doc|]);
      assert end[..|next|][..|doc|] == end[..|doc|];
    }
  }

  /** The type a section's header is read back with. */
  function ReadType(s: Section): string { if s.typ == "" then s.name else s.typ }

  ghost predicate Keyed(s: Section) { "" !in s.options && ("" in s.lists ==> s.lists[""] == []) }

  ghost function SectionRows(s: Section): seq<Item> {
    OptionRows(Sorted(s.options.Keys), s.options) + ListRows(Sorted(s.lists.Keys), s.lists)
  }

  lemma {:induction false} RowsInSection(s: Section)
    ensures InSection(SectionRows(s))
  {
    OptionsInSection(Sorted(s.options.Keys), s.options);
    ListsInSection(Sorted(s.lists.Keys), s.lists);
  }

  lemma {:induction false} OptionsInSection(ks: seq<string>, m: map<string, string>)
    requires forall k :: k in ks ==> k in m
    ensures InSection(OptionRows(ks, m))
    decreases |ks|
  {
    if ks != [] { OptionsInSection(ks[1..], m); }
  }

  lemma {:induction false} ListsInSection(ks: seq<string>, m: map<string, seq<string>>)
    requires forall k :: k in ks ==> k in m
    ensures InSection(ListRows(ks, m))
    decreases |ks|
  {
    if ks != [] {
      ListsInSection(ks[1..], m);
      ValuesInSection(ks[0], m[ks[0]]);
    }
  }

  lemma {:induction false} ValuesInSection(key: string, vs: seq<string>)
    ensures InSection(ValueRows(key, vs))
    ensures vs != [] ==> ValueRows(key, vs) != [] && ValueRows(key, vs)[0].word == key
    decreases |vs|
  {
    if vs != [] { ValuesInSection(key, vs[1..]); }
  }

  ghost predicate HasWord(rows: seq<Item>, w: string) {
    exists i :: 0 <= i < |rows| && rows[i].Row? && rows[i].word == w
  }

  lemma {:induction false} HasWordCat(a: seq<Item>, b: seq<Item>, w: string)
    requires HasWord(a, w) || HasWord(b, w)
    ensures HasWord(a + b, w)
  {
    if i :| 0 <= i < |a| && a[i].Row? && a[i].word == w {
      assert (a + b)[i] == a[i];
    } else {
      var i :| 0 <= i < |b| && b[i].Row? && b[i].word == w;
      assert (a + b)[|a| + i] == b[i];
    }
  }

  lemma {:induction false} OptionHasWord(ks: seq<string>, m: map<string, string>, w: string)
    requires (forall k :: k in ks ==> k in m) && w in ks
    ensures HasWord(OptionRows(ks, m), w)
    decreases |ks|
  {
    var first, rest := [Row("option", ks[0], m[ks[0]])], OptionRows(ks[1..], m);
    assert ks == [ks[0]] + ks[1..];
    if w == ks[0] { assert first[0].word == w; } else { OptionHasWord(ks[1..], m, w); }
    HasWordCat(first, rest, w);
  }

  lemma {:induction false} ListHasWord(ks: seq<string>, m: map<string, seq<string>>, w: string)
    requires (forall k :: k in ks ==> k in m) && w in ks && m[w] != []
    ensures HasWord(ListRows(ks, m), w)
    decreases |ks|
  {
    var first, rest := ValueRows(ks[0], m[ks[0]]), ListRows(ks[1..], m);
    assert ks == [ks[0]] + ks[1..];
    if w == ks[0] {
      ValuesInSection(w, m[w]);
      assert first[0].Row? && first[0].word == w;
    } else {
      ListHasWord(ks[1..], m, w);
    }
    HasWordCat(first, rest, w);
  }

  lemma {:induction false} FieldsFour(h: Item, o: seq<Item>, l: seq<Item>, more: seq<seq<string>>)
    ensures AllFields([h] + (o + (l + [Gap]))) + more == RowFields(h) + (AllFields(o + l) + more)
  {
    AllFieldsCat(l, [Gap]);
    AllFieldsCat(o, l + [Gap]);
    AllFieldsCat([h], o + (l + [Gap]));
    AllFieldsCat(o, l);
    FieldsOne(Gap);
    FieldsOne(h);
    assert AllFields(l) + [] == AllFields(l);
    Regroup5(RowFields(h), AllFields(o), AllFields(l), more);
  }

  lemma {:induction false} Regroup5(a: seq<seq<string>>, b: seq<seq<string>>, c: seq<seq<string>>, d: seq<seq<string>>)
    ensures a + (b + c) + d == a + (b + c + d)
  {}

  lemma {:induction false} FieldsOne(i: Item)
    ensures AllFields([i]) == RowFields(i)
  {
    assert [i][1..] == [] && RowFields(i) + [] == RowFields(i);
  }

  lemma {:induction false} SectionFieldsShape(s: Section, more: seq<seq<string>>)
    ensures AllFields(SectionItems(s)) + more == [HeaderFields(s)] + (AllFields(SectionRows(s)) + more)
  {
    FieldsFour(Row("config", s.typ, s.name), OptionRows(Sorted(s.options.Keys), s.options),
               ListRows(Sorted(s.lists.Keys), s.lists), more);
  }

  /** Position `n` on, the sections have the types the headers were read with. */
  ghost predicate ReadAs(doc: seq<Section>, n: nat, end: seq<Section>)
    decreases |doc|
  {
    if doc == [] then n <= |end|
    else n < |end| && end[n].typ == ReadType(doc[0]) && Keyed(doc[0]) && ReadAs(doc[1..], n + 1, end)
  }

  lemma {:induction false} ReadAsAt(doc: seq<Section>, n: nat, end: seq<Section>, i: nat)
    requires ReadAs(doc, n, end) && i < |doc|
    ensures n + i < |end| && end[n + i].typ == ReadType(doc[i]) && Keyed(doc[i])
    decreases |doc|
  {
    if i > 0 { ReadAsAt(doc[1..], n + 1, end, i - 1); }
  }

  lemma {:induction false} BuildFirst(s: Section, more: seq<seq<string>>, before: seq<Section>, end: seq<Section>)
    returns (mid: seq<Section>)
    requires Build(AllFields(SectionItems(s)) + more, before) == Some(end)
    ensures |mid| == |before| + 1 && Build(more, mid) == Some(end)
    ensures |before| < |end| && end[|before|].typ == ReadType(s) && Keyed(s)
  {
    SectionFieldsShape(s, more);
    mid := BuildSectionRows(s, SectionRows(s), more, before, end);
    TypesStay(more, mid, end);
    SectionKeyed(s, SectionRows(s));
    assert end[|before|] == end[..|mid|][|before|];
  }

  lemma {:induction false} ItemsFirst(doc: seq<Section>)
    requires doc != []
    ensures AllFields(Items(doc)) == AllFields(SectionItems(doc[0])) + AllFields(Items(doc[1..]))
  {
    AllFieldsCat(SectionItems(doc[0]), Items(doc[1..]));
  }

  lemma {:induction false} BuildHead(doc: seq<Section>, before: seq<Section>, end: seq<Section>)
      returns (mid: seq<Section>)
    requires doc != [] && Build(AllFields(Items(doc)), before) == Some(end)
    ensures |mid| == |before| + 1 && Build(AllFields(Items(doc[1..])), mid) == Some(end)
    ensures |before| < |end| && end[|before|].typ == ReadType(doc[0]) && Keyed(doc[0])
  {
    ItemsFirst(doc);
    mid := BuildFirst(doc[0], AllFields(Items(doc[1..])), before, end);
  }

  lemma {:induction false} BuildTypes(doc: seq<Section>, fields: seq<seq<string>>, before: seq<Section>,
      end: seq<Section>)
    requires fields == AllFields(Items(doc)) && Build(fields, before) == Some(end)
    ensures ReadAs(doc, |before|, end)
    decreases |doc|
  {
    if doc != [] {
      var mid := BuildHead(doc, before, end);
      BuildTypes(doc[1..], AllFields(Items(doc[1..])), mid, end);
    }
  }

  lemma {:induction false} BuildSectionRows(s: Section, rows: seq<Item>, more: seq<seq<string>>, before: seq<Section>,
      end: seq<Section>)
    returns (mid: seq<Section>)
    requires rows == SectionRows(s)
    requires Build([HeaderFields(s)] + (AllFields(rows) + more), before) == Some(end)
    ensures |mid| == |before| + 1 && mid[|before|].typ == ReadType(s) && Build(more, mid) == Some(end)
    ensures !HasWord(rows, "")
  {
    RowsInSection(s);
    var all := [HeaderFields(s)] + (AllFields(rows) + more);
    assert all[0] == HeaderFields(s) && all[1..] == AllFields(rows) + more;
    var next := ApplyCommand(HeaderFields(s), before);
    assert next.Next? && |next.doc| == |before| + 1 && next.doc[|before|].typ == ReadType(s);
    mid := BuildRows(rows, more, next.doc);
  }

  lemma {:induction false} SectionKeyed(s: Section, rows: seq<Item>)
    requires rows == SectionRows(s)
    requires !HasWord(rows, "")
    ensures Keyed(s)
  {
    var o, l := OptionRows(Sorted(s.options.Keys), s.options), ListRows(Sorted(s.lists.Keys), s.lists);
    if "" in s.options {
      OptionHasWord(Sorted(s.options.Keys), s.options, "");
      HasWordCat(o, l, "");
    }
    if "" in s.lists && s.lists[""] != [] {
      ListHasWord(Sorted(s.lists.Keys), s.lists, "");
      HasWordCat(o, l, "");
    }
  }

  // ------------------------------------------------------------- main result

  lemma {:induction false} ReadsTitled(doc: seq<Section>)
    requires Parse(Print(doc)) == Ok(doc)
    ensures forall s :: s in doc ==> (s.typ == "" ==> s.name == "") && Keyed(s)
  {
    PlainWords(doc);
    BuildsBack(doc);
    BuildTypes(doc, AllFields(Items(doc)), [], doc);
    forall s | s in doc ensures (s.typ == "" ==> s.name == "") && Keyed(s) {
      var i :| 0 <= i < |doc| && doc[i] == s;
      ReadAsAt(doc, 0, doc, i);
    }
  }

  lemma {:induction false} ItemsHave(doc: seq<Section>, s: Section, w: string)
    requires s in doc && HasWord(SectionItems(s), w)
    ensures HasWord(Items(doc), w)
    decreases |doc|
  {
    assert doc == [doc[0]] + doc[1..];
    if s != doc[0] { ItemsHave(doc[1..], s, w); }
    HasWordCat(SectionItems(doc[0]), Items(doc[1..]), w);
  }

  lemma {:induction false} PlainIfThere(items: seq<Item>, w: string)
    requires WordsPlain(items) && HasWord(items, w)
    ensures AllPlain(w)
  {}

  lemma {:induction false} SectionPlain(doc: seq<Section>, s: Section, w: string)
    requires WordsPlain(Items(doc)) && s in doc
    requires w == s.typ || w in s.options || (w in s.lists && s.lists[w] != [])
    ensures AllPlain(w)
  {
    var h, o, l := [Row("config", s.typ, s.name)], OptionRows(Sorted(s.options.Keys), s.options),
        ListRows(Sorted(s.lists.Keys), s.lists);
    if w == s.typ {
      assert h[0].Row? && h[0].word == w;
    } else if w in s.options {
      OptionHasWord(Sorted(s.options.Keys), s.options, w);
      HasWordCat(o, l + [Gap], w);
    } else {
      ListHasWord(Sorted(s.lists.Keys), s.lists, w);
      HasWordCat(l, [Gap], w);
      HasWordCat(o, l + [Gap], w);
    }
    HasWordCat(h, o + (l + [Gap]), w);
    ItemsHave(doc, s, w);
    PlainIfThere(Items(doc), w);
  }

  lemma {:induction false} AppliedNoEmpty(g: seq<string>, doc: seq<Section>)
    requires ApplyCommand(g, doc).Next? && forall s :: s in doc ==> NoEmptyList(s)
    ensures forall s :: s in ApplyCommand(g, doc).doc ==> NoEmptyList(s)
  {
    var next := ApplyCommand(g, doc).doc;
    if g[0] != "config" {
      var cur := doc[|doc| - 1];
      assert cur in doc;
      assert NoEmptyList(AddOption(cur, g[1], g[2])) && NoEmptyList(AddToList(cur, g[1], g[2]));
    }
    forall i | 0 <= i < |next| ensures NoEmptyList(next[i]) {
      if i < |doc| { assert doc[i] in doc; }
    }
  }

  /** An empty list is printed as nothing, so no list that was read back is empty. */
  lemma {:induction false} NoEmptyRead(cmds: seq<Command>, doc: seq<Section>, end: seq<Section>)
    requires Interpret(cmds, doc) == Ok(end) && forall s :: s in doc ==> NoEmptyList(s)
    ensures forall s :: s in end ==> NoEmptyList(s)
    decreases |cmds|
  {
    if cmds != [] {
      var next := ApplyCommand(cmds[0].fields, doc).doc;
      AppliedNoEmpty(cmds[0].fields, doc);
      NoEmptyRead(cmds[1..], next, end);
    }
  }

  /** A document survives printing and parsing if and only if every type is a plain
      word (or the section has neither type nor name), every key is a plain word, and
      no list is empty. */
  lemma {:induction false} RoundTripIff(doc: seq<Section>)
    ensures Parse(Print(doc)) == Ok(doc) <==> forall s :: s in doc ==> Printable(s) && NoEmptyList(s)
  {
    if Parse(Print(doc)) == Ok(doc) {
      PlainWords(doc);
      ReadsTitled(doc);
      NoEmptyRead(Scan(Print(doc), START).value, [], doc);
      forall s | s in doc ensures Printable(s) {
        SectionPlain(doc, s, s.typ);
        forall k | k in s.options ensures Word(k) { SectionPlain(doc, s, k); }
        forall k | k in s.lists ensures Word(k) { SectionPlain(doc, s, k); }
      }
    }
    if forall s :: s in doc ==> Printable(s) && NoEmptyList(s) {
      assert forall s :: s in doc ==> Printable(s);
      RoundTripExact(doc);
    }
  }
}
