/** What the commands of a configuration amount to: which lists of commands are
    accepted, what every section then holds, and which command is blamed otherwise. */
module UciSections {
  import opened Base
  import opened Uci

  // --------------------------------------------------------------- reference

  predicate Header(f: seq<string>) { 2 <= |f| <= 3 && f[0] == "config" }

  predicate Entry(f: seq<string>, keyword: string) { |f| == 3 && f[0] == keyword }

  predicate Inner(f: seq<string>) { Entry(f, "option") || Entry(f, "list") }

  /** A header first, and then headers and entries only. */
  predicate WellFormed(fs: seq<seq<string>>) {
    (fs == [] || Header(fs[0])) && forall i :: 0 <= i < |fs| ==> Header(fs[i]) || Inner(fs[i])
  }

  /** The value of the last option of that key. */
  function LastOption(body: seq<seq<string>>, key: string): Option<string> {
    if body == [] then None
    else
      var n := |body| - 1;
      if Entry(body[n], "option") && body[n][1] == key then Some(body[n][2]) else LastOption(body[..n], key)
  }

  /** The values of all list entries of that key, in order. */
  function ListValues(body: seq<seq<string>>, key: string): seq<string> {
    if body == [] then []
    else
      var n := |body| - 1;
      ListValues(body[..n], key) + if Entry(body[n], "list") && body[n][1] == key then [body[n][2]] else []
  }

  function OptionIn(s: Section, key: string): Option<string> {
    if key in s.options then Some(s.options[key]) else None
  }

  function ListIn(s: Section, key: string): seq<string> { if key in s.lists then s.lists[key] else [] }

  /** The section is what its header and entries say, and nothing else. */
  ghost predicate Describes(s: Section, head: seq<string>, body: seq<seq<string>>)
    requires Header(head)
  {
    && s.typ == head[1] && s.name == (if |head| == 3 then head[2] else "")
    && (forall k :: OptionIn(s, k) == LastOption(body, k))
    && (forall k :: ListIn(s, k) == ListValues(body, k))
    && (forall k :: k in s.lists ==> s.lists[k] != [])
  }

  function LastHeader(fs: seq<seq<string>>): (h: Option<nat>)
    ensures h.Some? ==> h.value < |fs| && Header(fs[h.value])
  {
    if fs == [] then None
    else
      var n := |fs| - 1;
      if Header(fs[n]) then Some(n) else LastHeader(fs[..n])
  }

  /** One section for every header, holding the entries up to the next one. */
  ghost predicate Built(fs: seq<seq<string>>, doc: seq<Section>)
    decreases |fs|
  {
    match LastHeader(fs)
    case None => fs == [] && doc == []
    case Some(h) =>
      && doc != [] && Describes(doc[|doc| - 1], fs[h], fs[h + 1..])
      && Built(fs[..h], doc[..|doc| - 1])
  }

  /** What is wrong with a command that follows a well-formed list. */
  function Fault(f: seq<string>, first: bool): Issue {
    if f == [] then UnknownKeyword
    else if f[0] == "config" then MalformedConfig
    else if f[0] == "option" || f[0] == "list" then (if first then OutsideSection else Malformed)
    else UnknownKeyword
  }

  // ------------------------------------------------------------------- proofs

  lemma {:induction false} InterpretSnoc(cmds: seq<Command>, c: Command, doc: seq<Section>)
    ensures Interpret(cmds + [c], doc) ==
            match Interpret(cmds, doc)
            case Err(e) => Err(e)
            case Ok(d) =>
              (match ApplyCommand(c.fields, d)
               case Bad(issue) => Err(BadCommand(c.line, issue))
               case Next(d') => Ok(d'))
    decreases |cmds|
  {
    var all := cmds + [c];
    if cmds == [] {
      assert all == [c] && all[1..] == [];
    } else {
      assert all[0] == cmds[0] && all[1..] == cmds[1..] + [c];
      match ApplyCommand(cmds[0].fields, doc) {
        case Bad(_) =>
        case Next(doc') => InterpretSnoc(cmds[1..], c, doc');
      }
    }
  }

  lemma {:induction false} DescribesNew(head: seq<string>)
    requires Header(head)
    ensures Describes(Section(head[1], if |head| == 3 then head[2] else "", map[], map[]), head, [])
  {}

  lemma {:induction false} DescribesOption(s: Section, head: seq<string>, body: seq<seq<string>>, f: seq<string>)
    requires Header(head) && Describes(s, head, body) && Entry(f, "option")
    ensures Describes(AddOption(s, f[1], f[2]), head, body + [f])
  {
    var s', b := AddOption(s, f[1], f[2]), body + [f];
    assert b[..|body|] == body && b[|body|] == f;
    forall k ensures OptionIn(s', k) == LastOption(b, k) { assert OptionIn(s, k) == LastOption(body, k); }
    forall k ensures ListIn(s', k) == ListValues(b, k) {
      assert ListIn(s, k) == ListValues(body, k);
      assert f[0] != "list" by { assert f[0][0] == 'o'; }
    }
  }

  lemma {:induction false} DescribesList(s: Section, head: seq<string>, body: seq<seq<string>>, f: seq<string>)
    requires Header(head) && Describes(s, head, body) && Entry(f, "list")
    ensures Describes(AddToList(s, f[1], f[2]), head, body + [f])
  {
    var s', b := AddToList(s, f[1], f[2]), body + [f];
    assert b[..|body|] == body && b[|body|] == f;
    assert f[0] != "option" by { assert f[0][0] == 'l'; }
    forall k ensures OptionIn(s', k) == LastOption(b, k) { assert OptionIn(s, k) == LastOption(body, k); }
    forall k ensures ListIn(s', k) == ListValues(b, k) { assert ListIn(s, k) == ListValues(body, k); }
  }

  lemma {:induction false} BuiltHeader(fs: seq<seq<string>>, f: seq<string>, doc: seq<Section>, s: Section)
    requires Built(fs, doc) && Header(f) && Describes(s, f, [])
    ensures Built(fs + [f], doc + [s])
  {
    var all, d := fs + [f], doc + [s];
    assert all[|fs|] == f && all[|fs| + 1..] == [] && all[..|fs|] == fs && d[..|doc|] == doc;
    assert LastHeader(all) == Some(|fs|);
  }

  function Entered(s: Section, f: seq<string>): Section
    requires Inner(f)
  {
    if f[0] == "option" then AddOption(s, f[1], f[2]) else AddToList(s, f[1], f[2])
  }

  lemma {:induction false} DescribesEntry(s: Section, head: seq<string>, body: seq<seq<string>>, f: seq<string>)
    requires Header(head) && Describes(s, head, body) && Inner(f)
    ensures Describes(Entered(s, f), head, body + [f])
  {
    if Entry(f, "option") { DescribesOption(s, head, body, f); } else { DescribesList(s, head, body, f); }
  }

  /** The last header stays the last, and everything before it stays. */
  lemma {:induction false} LastHeaderStays(fs: seq<seq<string>>, f: seq<string>)
    requires !Header(f)
    ensures LastHeader(fs + [f]) == LastHeader(fs)
    ensures var h := LastHeader(fs); h.Some? ==>
              var all := fs + [f];
              all[h.value] == fs[h.value] && all[h.value + 1..] == fs[h.value + 1..] + [f]
              && all[..h.value] == fs[..h.value]
  {
    var all := fs + [f];
    assert all[|fs|] == f && all[..|fs|] == fs;
  }

  lemma {:induction false} BuiltEntry(fs: seq<seq<string>>, f: seq<string>, doc: seq<Section>)
    requires Built(fs, doc) && doc != [] && Inner(f)
    ensures Built(fs + [f], doc[|doc| - 1 := Entered(doc[|doc| - 1], f)])
  {
    var n := |doc| - 1;
    var d := doc[n := Entered(doc[n], f)];
    var h := LastHeader(fs).value;
    NotHeader(f);
    LastHeaderStays(fs, f);
    assert d[..n] == doc[..n];
    DescribesEntry(doc[n], fs[h], fs[h + 1..], f);
  }

  lemma {:induction false} NotHeader(f: seq<string>)
    requires Inner(f)
    ensures !Header(f)
  {
    if Entry(f, "option") { assert f[0][0] == 'o'; } else { assert f[0][0] == 'l'; }
  }

  lemma {:induction false} WellFormedSnoc(fs: seq<seq<string>>, f: seq<string>)
    ensures WellFormed(fs + [f]) <==> WellFormed(fs) && (Header(f) || (fs != [] && Inner(f)))
  {
    var all := fs + [f];
    assert all[|fs|] == f;
    if WellFormed(all) {
      forall i | 0 <= i < |fs| ensures Header(fs[i]) || Inner(fs[i]) { assert all[i] == fs[i]; }
      if fs != [] { assert all[0] == fs[0]; } else if Inner(f) { NotHeader(f); }
    }
  }

  function Added(f: seq<string>, doc: seq<Section>): seq<Section>
    requires Header(f) || (doc != [] && Inner(f))
  {
    if Header(f) then doc + [Section(f[1], if |f| == 3 then f[2] else "", map[], map[])]
    else
      doc[|doc| - 1 := Entered(doc[|doc| - 1], f)]
  }

  lemma {:induction false} ApplyShape(f: seq<string>, doc: seq<Section>)
    ensures ApplyCommand(f, doc) ==
            if Header(f) || (doc != [] && Inner(f)) then Next(Added(f, doc)) else Bad(Fault(f, doc == []))
  {
    Keyword("config", "option", "list");
  }

  /** One more command: it extends the sections exactly if it is a header, or an entry
      that has a section to go to. */
  lemma {:induction false} AddedBuilt(fs: seq<seq<string>>, f: seq<string>, doc: seq<Section>)
    requires Built(fs, doc) && (Header(f) || (doc != [] && Inner(f)))
    ensures Added(f, doc) != [] && Built(fs + [f], Added(f, doc))
  {
    if Header(f) {
      DescribesNew(f);
      BuiltHeader(fs, f, doc, Section(f[1], if |f| == 3 then f[2] else "", map[], map[]));
    } else {
      BuiltEntry(fs, f, doc);
    }
  }

  lemma {:induction false} Keyword(a: string, b: string, c: string)
    requires a == "config" && b == "option" && c == "list"
    ensures a != b && a != c && b != c
  {
    assert a[0] == 'c' && b[0] == 'o' && c[0] == 'l';
  }

  /** Commands up to the first one that does not fit. */
  ghost predicate Blames(cmds: seq<Command>, i: nat, e: Error) {
    && i < |cmds| && WellFormed(Fields(cmds[..i])) && !WellFormed(Fields(cmds[..i + 1]))
    && e == BadCommand(cmds[i].line, Fault(cmds[i].fields, i == 0))
  }

  lemma {:induction false} FieldsSnoc(cmds: seq<Command>, n: nat)
    requires n < |cmds|
    ensures cmds[..n + 1] == cmds[..n] + [cmds[n]]
    ensures Fields(cmds[..n + 1]) == Fields(cmds[..n]) + [cmds[n].fields]
  {}

  /** Interpreting the first `n` commands. */
  ghost predicate Settled(cmds: seq<Command>, n: nat)
    requires n <= |cmds|
  {
    var fs := Fields(cmds[..n]);
    match Interpret(cmds[..n], [])
    case Ok(doc) => WellFormed(fs) && Built(fs, doc) && (n == 0 <==> doc == [])
    case Err(e) => !WellFormed(fs) && exists i: nat :: i < n && Blames(cmds, i, e)
  }

  lemma {:induction false} SettledStep(cmds: seq<Command>, n: nat)
    requires n < |cmds| && Settled(cmds, n)
    ensures Settled(cmds, n + 1)
  {
    var fs, f := Fields(cmds[..n]), cmds[n].fields;
    FieldsSnoc(cmds, n);
    InterpretSnoc(cmds[..n], cmds[n], []);
    WellFormedSnoc(fs, f);
    match Interpret(cmds[..n], []) {
      case Err(e) =>
      case Ok(doc) =>
        ApplyShape(f, doc);
        if Header(f) || (doc != [] && Inner(f)) {
          AddedBuilt(fs, f, doc);
        } else {
          assert Blames(cmds, n, BadCommand(cmds[n].line, Fault(f, doc == [])));
        }
    }
  }

  lemma {:induction false} SettledAt(cmds: seq<Command>, n: nat)
    requires n <= |cmds|
    ensures Settled(cmds, n)
  {
    if n == 0 {
      assert cmds[..0] == [] && Fields([]) == [];
    } else {
      SettledAt(cmds, n - 1);
      SettledStep(cmds, n - 1);
    }
  }

  /** The parser accepts exactly the well-formed lists of commands, makes of them the
      sections they describe, and otherwise blames the first command that does not fit. */
  lemma InterpretsExactly(cmds: seq<Command>)
    ensures var r := Interpret(cmds, []);
            && (r.Ok? <==> WellFormed(Fields(cmds)))
            && (r.Ok? ==> Built(Fields(cmds), r.value))
            && (r.Err? ==> exists i: nat :: Blames(cmds, i, r.error))
  {
    SettledAt(cmds, |cmds|);
    assert cmds[..|cmds|] == cmds;
  }

  /** Nothing about a section is left open by its description. */
  lemma DescribedUniquely(s: Section, t: Section, head: seq<string>, body: seq<seq<string>>)
    requires Header(head) && Describes(s, head, body) && Describes(t, head, body)
    ensures s == t
  {
    forall k ensures OptionIn(s, k) == OptionIn(t, k) && ListIn(s, k) == ListIn(t, k) {
      assert OptionIn(s, k) == LastOption(body, k) && ListIn(s, k) == ListValues(body, k);
    }
    SameOptions(s, t);
    SameLists(s, t);
  }

  lemma SameOptions(s: Section, t: Section)
    requires forall k :: OptionIn(s, k) == OptionIn(t, k)
    ensures s.options == t.options
  {
    forall k ensures (k in s.options <==> k in t.options) && (k in s.options ==> s.options[k] == t.options[k]) {
      assert OptionIn(s, k) == OptionIn(t, k);
    }
  }

  lemma SameLists(s: Section, t: Section)
    requires forall k :: ListIn(s, k) == ListIn(t, k)
    requires forall k :: k in s.lists ==> s.lists[k] != []
    requires forall k :: k in t.lists ==> t.lists[k] != []
    ensures s.lists == t.lists
  {
    forall k ensures (k in s.lists <==> k in t.lists) && (k in s.lists ==> s.lists[k] == t.lists[k]) {
      assert ListIn(s, k) == ListIn(t, k);
    }
  }

  lemma {:induction false} BuiltUniquely(fs: seq<seq<string>>, a: seq<Section>, b: seq<Section>)
    requires Built(fs, a) && Built(fs, b)
    ensures a == b
    decreases |fs|
  {
    match LastHeader(fs) {
      case None =>
      case Some(h) =>
        DescribedUniquely(a[|a| - 1], b[|b| - 1], fs[h], fs[h + 1..]);
        BuiltUniquely(fs[..h], a[..|a| - 1], b[..|b| - 1]);
        assert a == a[..|a| - 1] + [a[|a| - 1]] && b == b[..|b| - 1] + [b[|b| - 1]];
    }
  }

  /** So a text parses to a document if and only if its commands are well formed and
      build it. */
  lemma ParsesExactly(src: string, doc: seq<Section>)
    ensures Parse(src) == Ok(doc) <==>
            var cmds := Scan(src, START);
            cmds.Ok? && WellFormed(Fields(cmds.value)) && Built(Fields(cmds.value), doc)
  {
    var cmds := Scan(src, START);
    if cmds.Ok? {
      InterpretsExactly(cmds.value);
      var r := Interpret(cmds.value, []);
      if r.Ok? && Built(Fields(cmds.value), doc) { BuiltUniquely(Fields(cmds.value), r.value, doc); }
    }
  }
}
