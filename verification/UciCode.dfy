/** The loops of the UCI reader and writer, proved against module Uci. */
module UciCode {
  import opened Base
  import opened ByteOrder
  import opened Uci

  /** tokenizeUCI. */
  method Tokenize(src: string) returns (r: Result<seq<Command>>)
    ensures r == Scan(src, START)
  {
    var st := START;
    var i := 0;
    assert src[0..] == src;
    while i < |src|
      invariant 0 <= i <= |src|
      invariant Scan(src, START) == Scan(src[i..], st)
    {
      var c := src[i];
      assert src[i..][0] == c && src[i..][1..] == src[i + 1..];
      if c == ' ' || c == '\t' || c == '\r' {
        st := st.FinishToken();
        i := i + 1;
      } else if c == '\n' || c == ';' {
        st := st.FinishCommand();
        i := i + 1;
        if c == '\n' { st := st.Newline(); }
        st := st.(commandLine := st.line);
      } else if c == '#' {
        st := st.FinishCommand();
        ghost var comment := src[i..];
        while i < |src| && src[i] != '\n'
          invariant 0 <= i <= |src| && SkipComment(comment) == SkipComment(src[i..])
        {
          assert src[i..][1..] == src[i + 1..];
          i := i + 1;
        }
        assert SkipComment(src[i..]) == src[i..];
      } else if c == '\'' || c == '"' {
        var err;
        i, st, err := ReadQuoted(src, i + 1, c, st.Begin());
        if err.Some? { return Err(err.value); }
      } else if c == '\\' {
        i := i + 1;
        if i >= |src| { return Err(UnterminatedEscape(st.line)); }
        assert src[i - 1..][1] == src[i] && src[i - 1..][2..] == src[i + 1..];
        if src[i] == '\n' {
          st := st.Begin().Newline();
        } else {
          st := st.Push(src[i]);
        }
        i := i + 1;
      } else {
        st := st.Push(c);
        i := i + 1;
      }
    }
    r := Ok(st.FinishCommand().commands);
  }

  /** The inner loop over a quoted fragment. */
  method ReadQuoted(src: string, start: nat, quote: char, st0: Scanner)
      returns (i: nat, st: Scanner, err: Option<Error>)
    requires start <= |src|
    ensures start <= i <= |src| && (err.None? ==> start < i)
    ensures ScanQuoted(quote, src[start..], st0) == if err.Some? then Err(err.value) else Scan(src[i..], st)
  {
    i, st := start, st0;
    while i < |src|
      invariant start <= i <= |src|
      invariant ScanQuoted(quote, src[start..], st0) == ScanQuoted(quote, src[i..], st)
    {
      var c := src[i];
      assert src[i..][0] == c && src[i..][1..] == src[i + 1..];
      if c == quote { return i + 1, st, None; }
      if c == '\\' && quote == '"' {
        if i + 1 >= |src| { return i, st, Some(UnterminatedEscape(st.line)); }
        assert src[i..][1] == src[i + 1] && src[i..][2..] == src[i + 2..];
        st := if src[i + 1] == '\n' then st.Newline() else st.Push(src[i + 1]);
        i := i + 2;
      } else {
        st := st.PushCounting(c);
        i := i + 1;
      }
    }
    err := Some(UnterminatedQuote(st.commandLine, quote));
  }

  /** ParseUCI. */
  method ParseUci(src: string) returns (r: Result<seq<Section>>)
    ensures r == Parse(src)
  {
    var tokens := Tokenize(src);
    if tokens.Err? { return Err(tokens.error); }
    var cmds := tokens.value;
    var doc := [];
    var i := 0;
    assert cmds[0..] == cmds;
    while i < |cmds|
      invariant 0 <= i <= |cmds| && Interpret(cmds, []) == Interpret(cmds[i..], doc)
    {
      assert cmds[i..][0] == cmds[i] && cmds[i..][1..] == cmds[i + 1..];
      match ApplyCommand(cmds[i].fields, doc) {
        case Bad(issue) => return Err(BadCommand(cmds[i].line, issue));
        case Next(doc') => doc := doc';
      }
      i := i + 1;
    }
    r := Ok(doc);
  }

  // ---------------------------------------------------------------- printing

  ghost predicate AtMost(a: string, b: string) { a == b || Less(a, b) }

  /** The map's keys in whatever order iteration yields them. */
  method Keys<V>(m: map<string, V>) returns (a: array<string>)
    ensures fresh(a) && multiset(a[..]) == multiset(m.Keys)
  {
    var left, ks := m.Keys, [];
    while left != {}
      invariant left <= m.Keys && multiset(ks) + multiset(left) == multiset(m.Keys)
      decreases |left|
    {
      var k :| k in left;
      left, ks := left - {k}, ks + [k];
    }
    a := new string[|ks|](i requires 0 <= i < |ks| => ks[i]);
    assert a[..] == ks;
  }

  /** sortedKeys: an exchange sort in place. */
  method SortedKeys<V>(m: map<string, V>) returns (r: seq<string>)
    ensures r == Sorted(m.Keys)
  {
    var a := Keys(m);
    var n := a.Length;
    var i := 0;
    while i < n
      invariant 0 <= i <= n
      invariant multiset(a[..]) == multiset(m.Keys)
      invariant forall x, y :: 0 <= x < i && x < y < n ==> AtMost(a[x], a[y])
    {
      PlaceLeast(a, i);
      i := i + 1;
    }
    r := a[..];
    DistinctFromSet(r, m.Keys);
    forall k ensures k in r <==> k in m.Keys { assert k in r <==> k in multiset(r); }
    AscendingUnique(r, Sorted(m.Keys));
  }

  lemma DistinctFromSet(r: seq<string>, ks: set<string>)
    requires multiset(r) == multiset(ks)
    requires forall x, y :: 0 <= x < y < |r| ==> AtMost(r[x], r[y])
    ensures Ascending(r)
  {
    forall x, y | 0 <= x < y < |r| ensures Less(r[x], r[y]) {
      assert r == r[..x] + [r[x]] + r[x + 1..y] + [r[y]] + r[y + 1..];
      assert multiset(r)[r[x]] >= if r[x] == r[y] then 2 else 1;
      assert multiset(ks)[r[x]] <= 1;
    }
  }

  method Swap(a: array<string>, i: nat, j: nat)
    requires i < j < a.Length
    modifies a
    ensures a[i] == old(a[j]) && a[j] == old(a[i])
    ensures forall k :: 0 <= k < a.Length && k != i && k != j ==> a[k] == old(a[k])
    ensures multiset(a[..]) == old(multiset(a[..]))
  {
    a[i], a[j] := a[j], a[i];
  }

  /** One pass of the outer loop: the least remaining key moves to position i. */
  method PlaceLeast(a: array<string>, i: nat)
    requires i < a.Length
    requires forall x, y :: 0 <= x < i && x < y < a.Length ==> AtMost(a[x], a[y])
    modifies a
    ensures multiset(a[..]) == old(multiset(a[..]))
    ensures forall x, y :: 0 <= x <= i && x < y < a.Length ==> AtMost(a[x], a[y])
  {
    var j := i + 1;
    while j < a.Length
      invariant i < j <= a.Length
      invariant multiset(a[..]) == old(multiset(a[..]))
      invariant forall x, y :: 0 <= x < i && x < y < a.Length ==> AtMost(a[x], a[y])
      invariant forall y :: i < y < j ==> AtMost(a[i], a[y])
    {
      ghost var least, next := a[i], a[j];
      LessTotal(least, next);
      if Less(a[j], a[i]) {
        forall y | i < y < j ensures AtMost(next, a[y]) {
          if a[y] != least { LessTransitive(next, least, a[y]); }
        }
        Swap(a, i, j);
      }
      j := j + 1;
    }
  }

  /** Serialize. */
  method Serialize(doc: seq<Section>) returns (r: string)
    ensures r == Print(doc)
  {
    r := "";
    var i := 0;
    while i < |doc|
      invariant 0 <= i <= |doc| && r + Print(doc[i..]) == Print(doc)
    {
      var s := doc[i];
      assert doc[i..][0] == s && doc[i..][1..] == doc[i + 1..];
      var options := WriteOptions(s.options);
      var lists := WriteLists(s.lists);
      ghost var before := r;
      r := r + (Line("config", s.typ, s.name) + options + lists + "\n");
      assert r + Print(doc[i + 1..]) == before + (PrintSection(s) + Print(doc[i + 1..]));
      i := i + 1;
    }
    assert Print(doc[i..]) == "" && r + "" == r;
  }

  lemma OptionLinesFrom(before: string, ks: seq<string>, m: map<string, string>, i: nat)
    requires i < |ks| && forall k :: k in ks ==> k in m
    ensures before + OptionLines(ks[i..], m) == before + ("\t" + Line("option", ks[i], m[ks[i]]))
            + OptionLines(ks[i + 1..], m)
  {
    assert ks[i..][0] == ks[i] && ks[i..][1..] == ks[i + 1..];
  }

  method WriteOptions(m: map<string, string>) returns (r: string)
    ensures r == OptionLines(Sorted(m.Keys), m)
  {
    var ks := SortedKeys(m);
    r := "";
    var i := 0;
    assert ks[0..] == ks;
    while i < |ks|
      invariant 0 <= i <= |ks| && (forall k :: k in ks ==> k in m)
      invariant r + OptionLines(ks[i..], m) == OptionLines(ks, m)
    {
      OptionLinesFrom(r, ks, m, i);
      r := r + ("\t" + Line("option", ks[i], m[ks[i]]));
      i := i + 1;
    }
    assert OptionLines(ks[i..], m) == "" && r + "" == r;
  }

  lemma ListLinesFrom(before: string, ks: seq<string>, m: map<string, seq<string>>, i: nat)
    requires i < |ks| && forall k :: k in ks ==> k in m
    ensures before + ListLines(ks[i..], m) == before + ValueLines(ks[i], m[ks[i]]) + ListLines(ks[i + 1..], m)
  {
    assert ks[i..][0] == ks[i] && ks[i..][1..] == ks[i + 1..];
  }

  method WriteLists(m: map<string, seq<string>>) returns (r: string)
    ensures r == ListLines(Sorted(m.Keys), m)
  {
    var ks := SortedKeys(m);
    r := "";
    var i := 0;
    assert ks[0..] == ks;
    while i < |ks|
      invariant 0 <= i <= |ks| && (forall k :: k in ks ==> k in m)
      invariant r + ListLines(ks[i..], m) == ListLines(ks, m)
    {
      ListLinesFrom(r, ks, m, i);
      var values := WriteValues(ks[i], m[ks[i]]);
      r := r + values;
      i := i + 1;
    }
    assert ListLines(ks[i..], m) == "" && r + "" == r;
  }

  method WriteValues(key: string, vs: seq<string>) returns (r: string)
    ensures r == ValueLines(key, vs)
  {
    r := "";
    var i := 0;
    assert vs[0..] == vs;
    while i < |vs|
      invariant 0 <= i <= |vs| && r + ValueLines(key, vs[i..]) == ValueLines(key, vs)
    {
      assert vs[i..][0] == vs[i] && vs[i..][1..] == vs[i + 1..];
      ghost var before := r;
      r := r + ("\t" + Line("list", key, vs[i]));
      assert r + ValueLines(key, vs[i + 1..]) == before + ("\t" + Line("list", key, vs[i])
             + ValueLines(key, vs[i + 1..]));
      i := i + 1;
    }
    assert ValueLines(key, vs[i..]) == "" && r + "" == r;
  }

  /** The running writer followed by the running reader loses nothing. */
  method WriteThenRead(doc: seq<Section>) returns (r: Result<seq<Section>>)
    requires forall s :: s in doc ==> Printable(s)
    ensures r == Ok(Normalize(doc))
  {
    var text := Serialize(doc);
    r := ParseUci(text);
    RoundTrip(doc);
  }
}
