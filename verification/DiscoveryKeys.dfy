/** The strings by which the mDNS service tells publications apart. */
module DiscoveryKeys {
  const NUL: char := '\0'

  datatype Iface = Iface(index: nat, name: string, up: bool, multicast: bool, loopback: bool)

  /** The advertised facts; the numeric ones in their printed form. */
  datatype Metadata = Metadata(version: string, id: string, model: string, cid: string, features: string, tls: string)

  datatype Publication = Publication(instance: string, port: nat, meta: Metadata, interfaces: seq<Iface>)

  function Digit(d: nat): (c: char)
    requires d < 10
    ensures '0' <= c <= '9'
  {
    '0' + d as char
  }

  function Decimal(n: nat): string {
    if n < 10 then [Digit(n)] else Decimal(n / 10) + [Digit(n % 10)]
  }

  function Txt(m: Metadata): (t: seq<string>)
    ensures |t| == 8 && t[7] == "auth=pin"
  {
    ["ver=" + m.version, "api=1", "id=" + m.id, "model=" + m.model, "cid=" + m.cid, "features=" + m.features,
     "tls=" + (if m.tls == "" then "none" else m.tls), "auth=pin"]
  }

  /** Each field preceded by a NUL. */
  function Fields(fs: seq<string>): string {
    if fs == [] then "" else Fields(fs[..|fs| - 1]) + [NUL] + fs[|fs| - 1]
  }

  function Segment(i: Iface): string { Decimal(i.index) + ":" + i.name }

  function Segments(ifaces: seq<Iface>): seq<string> {
    seq(|ifaces|, k requires 0 <= k < |ifaces| => Segment(ifaces[k]))
  }

  function InterfaceKey(ifaces: seq<Iface>): string { Fields(Segments(ifaces)) }

  function MetadataKey(p: Publication): string { p.instance + Fields([Decimal(p.port)] + Txt(p.meta)) }

  function Key(p: Publication): string { MetadataKey(p) + InterfaceKey(p.interfaces) }

  predicate NulFree(s: string) { forall k :: 0 <= k < |s| ==> s[k] != NUL }

  predicate Named(ifaces: seq<Iface>) { forall k :: 0 <= k < |ifaces| ==> NulFree(ifaces[k].name) }

  predicate Digits(s: string) { forall k :: 0 <= k < |s| ==> '0' <= s[k] <= '9' }

  /** What an interface is known by. */
  predicate SameInterfaces(a: seq<Iface>, b: seq<Iface>) {
    |a| == |b| && forall k :: 0 <= k < |a| ==> a[k].index == b[k].index && a[k].name == b[k].name
  }

  // ------------------------------------------------------------ small pieces

  lemma {:induction false} DecimalDigits(n: nat)
    ensures Digits(Decimal(n)) && |Decimal(n)| > 0
  {
    if n >= 10 { DecimalDigits(n / 10); }
  }

  lemma {:induction false} DecimalInjective(a: nat, b: nat)
    requires Decimal(a) == Decimal(b)
    ensures a == b
  {
    var s := Decimal(a);
    assert s[|s| - 1] == Digit(a % 10) == Digit(b % 10);
    DecimalDigits(a / 10);
    DecimalDigits(b / 10);
    if a >= 10 && b >= 10 {
      assert s[..|s| - 1] == Decimal(a / 10) == Decimal(b / 10);
      DecimalInjective(a / 10, b / 10);
    }
  }

  /** The last NUL of a string is no later than the split before a NUL-free rest. */
  lemma NulBound(a: string, u: string, k: nat)
    requires NulFree(u) && k < |a + [NUL] + u| && (a + [NUL] + u)[k] == NUL
    ensures k <= |a|
  {}

  lemma ColonBound(a: string, u: string, k: nat)
    requires Digits(a) && k < |a + ":" + u| && (a + ":" + u)[k] == ':'
    ensures |a| <= k
  {}

  /** The last NUL splits a string in one way only. */
  lemma LastField(a: string, u: string, b: string, v: string)
    requires a + [NUL] + u == b + [NUL] + v && NulFree(u) && NulFree(v)
    ensures a == b && u == v
  {
    var s, t := a + [NUL] + u, b + [NUL] + v;
    assert s[|a|] == NUL && t[|b|] == NUL;
    NulBound(a, u, |b|);
    NulBound(b, v, |a|);
    assert s[..|a|] == a && t[..|b|] == b;
    assert s[|a| + 1..] == u && t[|b| + 1..] == v;
  }

  /** So does the first colon after digits. */
  lemma FirstColon(a: string, u: string, b: string, v: string)
    requires a + ":" + u == b + ":" + v && Digits(a) && Digits(b)
    ensures a == b && u == v
  {
    var s, t := a + ":" + u, b + ":" + v;
    assert s[|a|] == ':' && t[|b|] == ':';
    ColonBound(b, v, |a|);
    ColonBound(a, u, |b|);
    assert s[..|a|] == a && t[..|b|] == b;
    assert s[|a| + 1..] == u && t[|b| + 1..] == v;
  }

  lemma SegmentInjective(i: Iface, j: Iface)
    requires Segment(i) == Segment(j)
    ensures i.index == j.index && i.name == j.name
  {
    DecimalDigits(i.index);
    DecimalDigits(j.index);
    FirstColon(Decimal(i.index), i.name, Decimal(j.index), j.name);
    DecimalInjective(i.index, j.index);
  }

  lemma SegmentShape(i: Iface)
    requires NulFree(i.name)
    ensures NulFree(Segment(i)) && Segment(i) != "auth=pin"
  {
    DecimalDigits(i.index);
    assert '0' <= Segment(i)[0] <= '9';
  }

  lemma FieldsLast(fs: seq<string>, f: string)
    ensures Fields(fs + [f]) == Fields(fs) + [NUL] + f
  {
    assert (fs + [f])[..|fs|] == fs;
  }

  lemma InterfaceKeyLast(ifaces: seq<Iface>)
    requires ifaces != []
    ensures InterfaceKey(ifaces) == InterfaceKey(ifaces[..|ifaces| - 1]) + [NUL] + Segment(ifaces[|ifaces| - 1])
  {
    assert Segments(ifaces)[..|ifaces| - 1] == Segments(ifaces[..|ifaces| - 1]);
  }

  // -------------------------------------------------------------- interfaces

  /** One interface less on both sides. */
  lemma Peel(px: string, a: seq<Iface>, py: string, b: seq<Iface>)
    requires Named(a) && Named(b) && a != [] && b != []
    requires px + InterfaceKey(a) == py + InterfaceKey(b)
    ensures px + InterfaceKey(a[..|a| - 1]) == py + InterfaceKey(b[..|b| - 1])
    ensures a[|a| - 1].index == b[|b| - 1].index && a[|a| - 1].name == b[|b| - 1].name
  {
    var a', i, b', j := a[..|a| - 1], a[|a| - 1], b[..|b| - 1], b[|b| - 1];
    InterfaceKeyLast(a);
    InterfaceKeyLast(b);
    SegmentShape(i);
    SegmentShape(j);
    assert px + InterfaceKey(a) == (px + InterfaceKey(a')) + [NUL] + Segment(i);
    assert py + InterfaceKey(b) == (py + InterfaceKey(b')) + [NUL] + Segment(j);
    LastField(px + InterfaceKey(a'), Segment(i), py + InterfaceKey(b'), Segment(j));
    SegmentInjective(i, j);
  }

  /** The fixed last TXT entry is not taken for an interface. */
  lemma NotAnInterface(px: string, a: seq<Iface>, y: string)
    requires Named(a) && a != []
    ensures px + InterfaceKey(a) != y + [NUL] + "auth=pin"
  {
    var a', i := a[..|a| - 1], a[|a| - 1];
    if px + InterfaceKey(a) == y + [NUL] + "auth=pin" {
      InterfaceKeyLast(a);
      SegmentShape(i);
      assert px + InterfaceKey(a) == (px + InterfaceKey(a')) + [NUL] + Segment(i);
      LastField(px + InterfaceKey(a'), Segment(i), y, "auth=pin");
    }
  }

  /** Two keys that agree agree on the interfaces, whatever precedes them, as long
      as what precedes ends in the fixed last TXT entry. */
  lemma {:induction false} SuffixFixesInterfaces(x: string, a: seq<Iface>, y: string, b: seq<Iface>)
    requires Named(a) && Named(b)
    requires x + [NUL] + "auth=pin" + InterfaceKey(a) == y + [NUL] + "auth=pin" + InterfaceKey(b)
    ensures SameInterfaces(a, b) && x == y
    decreases |a|
  {
    var px, py := x + [NUL] + "auth=pin", y + [NUL] + "auth=pin";
    assert px + "" == px && py + "" == py;
    if a != [] { NotAnInterface(px, a, y); }
    if b != [] { NotAnInterface(py, b, x); }
    if a == [] {
      LastField(x, "auth=pin", y, "auth=pin");
    } else {
      Peel(px, a, py, b);
      SuffixFixesInterfaces(x, a[..|a| - 1], y, b[..|b| - 1]);
    }
  }

  lemma KeyShape(p: Publication)
    ensures MetadataKey(p) == (p.instance + Fields([Decimal(p.port)] + Txt(p.meta)[..7])) + [NUL] + "auth=pin"
    ensures Key(p) == (p.instance + Fields([Decimal(p.port)] + Txt(p.meta)[..7])) + [NUL] + "auth=pin"
            + InterfaceKey(p.interfaces)
  {
    var fs := [Decimal(p.port)] + Txt(p.meta)[..7];
    assert [Decimal(p.port)] + Txt(p.meta) == fs + ["auth=pin"];
    FieldsLast(fs, "auth=pin");
  }

  /** Equal keys mean equal interfaces, whatever bytes the device's id and model or
      the host name contain. */
  lemma KeyFixesInterfaces(p: Publication, q: Publication)
    requires Named(p.interfaces) && Named(q.interfaces) && Key(p) == Key(q)
    ensures SameInterfaces(p.interfaces, q.interfaces) && MetadataKey(p) == MetadataKey(q)
  {
    KeyShape(p);
    KeyShape(q);
    SuffixFixesInterfaces(p.instance + Fields([Decimal(p.port)] + Txt(p.meta)[..7]), p.interfaces,
                          q.instance + Fields([Decimal(q.port)] + Txt(q.meta)[..7]), q.interfaces);
  }

  lemma InterfaceKeyInjective(a: seq<Iface>, b: seq<Iface>)
    requires Named(a) && Named(b)
    ensures InterfaceKey(a) == InterfaceKey(b) <==> SameInterfaces(a, b)
  {
    if InterfaceKey(a) == InterfaceKey(b) {
      SuffixFixesInterfaces("", a, "", b);
    }
    if SameInterfaces(a, b) {
      assert Segments(a) == Segments(b);
    }
  }

  /** With a NUL in a name the keys would collide. */
  lemma NamesMustBeNulFree()
    ensures InterfaceKey([Iface(1, "a\02:b", true, true, false)])
         == InterfaceKey([Iface(1, "a", true, true, false), Iface(2, "b", true, true, false)])
  {
    var x, y, z := Iface(1, "a\02:b", true, true, false), Iface(1, "a", true, true, false),
        Iface(2, "b", true, true, false);
    InterfaceKeyLast([x]);
    InterfaceKeyLast([y, z]);
    InterfaceKeyLast([y]);
    assert [x][..0] == [] && [y, z][..1] == [y] && [y][..0] == [];
    assert Decimal(1) == "1" && Decimal(2) == "2";
  }

  // ----------------------------------------------------------------- metadata

  predicate AllNulFree(fs: seq<string>) { forall k :: 0 <= k < |fs| ==> NulFree(fs[k]) }

  lemma {:induction false} FieldsInjective(x: string, fs: seq<string>, y: string, gs: seq<string>)
    requires |fs| == |gs| && AllNulFree(fs) && AllNulFree(gs)
    requires x + Fields(fs) == y + Fields(gs)
    ensures x == y && fs == gs
    decreases |fs|
  {
    if fs == [] {
      assert x + "" == x && y + "" == y;
    } else {
      var n := |fs| - 1;
      assert x + Fields(fs) == (x + Fields(fs[..n])) + [NUL] + fs[n];
      assert y + Fields(gs) == (y + Fields(gs[..n])) + [NUL] + gs[n];
      LastField(x + Fields(fs[..n]), fs[n], y + Fields(gs[..n]), gs[n]);
      FieldsInjective(x, fs[..n], y, gs[..n]);
      assert fs == fs[..n] + [fs[n]] && gs == gs[..n] + [gs[n]];
    }
  }

  /** The strings the program itself makes: version, printed numbers, fingerprint. */
  predicate Made(m: Metadata) { NulFree(m.version) && NulFree(m.cid) && NulFree(m.features) && NulFree(m.tls) }

  lemma TxtInjective(m: Metadata, n: Metadata)
    requires Txt(m) == Txt(n)
    ensures m.(tls := "") == n.(tls := "")
    ensures (if m.tls == "" then "none" else m.tls) == (if n.tls == "" then "none" else n.tls)
  {
    var t, u := Txt(m), Txt(n);
    assert m.version == t[0][4..] && n.version == u[0][4..];
    assert m.id == t[2][3..] && n.id == u[2][3..];
    assert m.model == t[3][6..] && n.model == u[3][6..];
    assert m.cid == t[4][4..] && n.cid == u[4][4..];
    assert m.features == t[5][9..] && n.features == u[5][9..];
    assert (if m.tls == "" then "none" else m.tls) == t[6][4..];
    assert (if n.tls == "" then "none" else n.tls) == u[6][4..];
  }

  // ---------------------------------------------------- reading from the left

  /** The first NUL of a string is no earlier than the end of a NUL-free beginning. */
  lemma NulFrom(a: string, u: string, k: nat)
    requires NulFree(a) && k < |a + [NUL] + u| && (a + [NUL] + u)[k] == NUL
    ensures |a| <= k
  {}

  lemma FirstField(a: string, u: string, b: string, v: string)
    requires a + [NUL] + u == b + [NUL] + v && NulFree(a) && NulFree(b)
    ensures a == b && u == v
  {
    var s, t := a + [NUL] + u, b + [NUL] + v;
    assert s[|a|] == NUL && t[|b|] == NUL;
    NulFrom(a, u, |b|);
    NulFrom(b, v, |a|);
    assert s[..|a|] == a && t[..|b|] == b;
    assert s[|a| + 1..] == u && t[|b| + 1..] == v;
  }

  /** The device's own strings, as the key has them. */
  function Joint(m: Metadata): string { "id=" + m.id + [NUL] + ("model=" + m.model) }

  function TlsText(m: Metadata): string { if m.tls == "" then "none" else m.tls }

  function Ending(m: Metadata): seq<string> { ["cid=" + m.cid, "features=" + m.features, "tls=" + TlsText(m),
      "auth=pin"] }

  /** The key from the port on. */
  function FromPort(p: Publication): string {
    Decimal(p.port) + [NUL] + (("ver=" + p.meta.version) + [NUL]
        + ("api=1" + [NUL] + (Joint(p.meta) + Fields(Ending(p.meta)))))
  }

  lemma {:induction false} FieldsJoin(fs: seq<string>, gs: seq<string>)
    ensures Fields(fs + gs) == Fields(fs) + Fields(gs)
    decreases |gs|
  {
    if gs == [] {
      assert fs + gs == fs && Fields(fs) + "" == Fields(fs);
    } else {
      var n := |gs| - 1;
      FieldsJoin(fs, gs[..n]);
      assert fs + gs == (fs + gs[..n]) + [gs[n]];
      FieldsLast(fs + gs[..n], gs[n]);
    }
  }

  lemma FieldsFive(a: string, b: string, c: string, d: string, e: string)
    ensures Fields([a, b, c, d, e]) == [NUL] + (a + [NUL] + (b + [NUL] + (c + [NUL] + (d + [NUL] + e))))
  {
    assert [a, b, c, d, e] == [] + [a] + [b] + [c] + [d] + [e];
    FieldsLast([], a);
    FieldsLast([] + [a], b);
    FieldsLast([] + [a] + [b], c);
    FieldsLast([] + [a] + [b] + [c], d);
    FieldsLast([] + [a] + [b] + [c] + [d], e);
  }

  lemma MetadataShape(p: Publication)
    ensures MetadataKey(p) == p.instance + [NUL] + FromPort(p)
  {
    var m := p.meta;
    var head := [Decimal(p.port), "ver=" + m.version, "api=1", "id=" + m.id, "model=" + m.model];
    assert [Decimal(p.port)] + Txt(m) == head + Ending(m);
    FieldsJoin(head, Ending(m));
    FieldsFive(head[0], head[1], head[2], head[3], head[4]);
    Reassociate(head[0], head[1], head[2], head[3], head[4], Fields(Ending(m)));
    assert p.instance + (Fields(head) + Fields(Ending(m))) == p.instance + [NUL] + FromPort(p);
  }

  lemma Reassociate(a: string, b: string, c: string, d: string, e: string, f: string)
    ensures ([NUL] + (a + [NUL] + (b + [NUL] + (c + [NUL] + (d + [NUL] + e))))) + f
         == [NUL] + (a + [NUL] + (b + [NUL] + (c + [NUL] + ((d + [NUL] + e) + f))))
  {}

  /** The facts whose strings the program makes. */
  predicate SameMade(p: Publication, q: Publication) {
    && p.instance == q.instance && p.port == q.port && SameInterfaces(p.interfaces, q.interfaces)
    && p.meta.version == q.meta.version && Ending(p.meta) == Ending(q.meta)
  }

  /** A publication as the daemon makes it from a host name without NUL. */
  predicate Ordinary(p: Publication) { Named(p.interfaces) && NulFree(p.instance) && Made(p.meta) }

  lemma EndingMade(m: Metadata)
    requires Made(m)
    ensures AllNulFree(Ending(m))
  {}

  lemma FromPortFixes(p: Publication, q: Publication)
    requires Made(p.meta) && Made(q.meta) && FromPort(p) == FromPort(q)
    ensures p.port == q.port && p.meta.version == q.meta.version
    ensures Joint(p.meta) == Joint(q.meta) && Ending(p.meta) == Ending(q.meta)
  {
    var m, n := p.meta, q.meta;
    var x, y := Joint(m) + Fields(Ending(m)), Joint(n) + Fields(Ending(n));
    DecimalDigits(p.port);
    DecimalDigits(q.port);
    FirstField(Decimal(p.port), ("ver=" + m.version) + [NUL] + ("api=1" + [NUL] + x),
               Decimal(q.port), ("ver=" + n.version) + [NUL] + ("api=1" + [NUL] + y));
    DecimalInjective(p.port, q.port);
    FirstField("ver=" + m.version, "api=1" + [NUL] + x, "ver=" + n.version, "api=1" + [NUL] + y);
    assert m.version == ("ver=" + m.version)[4..] && n.version == ("ver=" + n.version)[4..];
    FirstField("api=1", x, "api=1", y);
    EndingMade(m);
    EndingMade(n);
    FieldsInjective(Joint(m), Ending(m), Joint(n), Ending(n));
  }

  /** Exactly what a key determines: everything the program makes, and the device's
      id and model as one string. */
  lemma KeyFixesJoint(p: Publication, q: Publication)
    requires Ordinary(p) && Ordinary(q)
    ensures Key(p) == Key(q) <==> SameMade(p, q) && Joint(p.meta) == Joint(q.meta)
  {
    MetadataShape(p);
    MetadataShape(q);
    InterfaceKeyInjective(p.interfaces, q.interfaces);
    if Key(p) == Key(q) {
      KeyFixesInterfaces(p, q);
      FirstField(p.instance, FromPort(p), q.instance, FromPort(q));
      FromPortFixes(p, q);
    }
  }

  lemma TxtParts(m: Metadata, n: Metadata)
    ensures Txt(m) == Txt(n) <==> m.version == n.version && m.id == n.id && m.model == n.model && Ending(m) == Ending(n)
  {
    if Txt(m) == Txt(n) {
      TxtInjective(m, n);
      assert Txt(m)[4..] == Ending(m) && Txt(n)[4..] == Ending(n);
    }
    if m.version == n.version && m.id == n.id && m.model == n.model && Ending(m) == Ending(n) {
      assert Txt(m)[4..] == Ending(m) && Txt(n)[4..] == Ending(n);
      assert Txt(m) == Txt(m)[..4] + Txt(m)[4..] && Txt(n) == Txt(n)[..4] + Txt(n)[4..];
    }
  }

  predicate SameFacts(p: Publication, q: Publication) {
    p.instance == q.instance && p.port == q.port && Txt(p.meta) == Txt(q.meta)
        && SameInterfaces(p.interfaces, q.interfaces)
  }

  /** Equal keys mean equal advertisements, whatever bytes the device's model holds,
      as long as its id has no NUL (a device's never has). */
  lemma KeyFixesAll(p: Publication, q: Publication)
    requires Ordinary(p) && Ordinary(q) && NulFree(p.meta.id) && NulFree(q.meta.id)
    ensures Key(p) == Key(q) <==> SameFacts(p, q)
  {
    var m, n := p.meta, q.meta;
    KeyFixesJoint(p, q);
    TxtParts(m, n);
    if Joint(m) == Joint(n) {
      FirstField("id=" + m.id, "model=" + m.model, "id=" + n.id, "model=" + n.model);
      assert m.id == ("id=" + m.id)[3..] && n.id == ("id=" + n.id)[3..];
      assert m.model == ("model=" + m.model)[6..] && n.model == ("model=" + n.model)[6..];
    }
  }

  // ------------------------------------------------------ when keys collide

  const SEPARATOR := "\0model="

  predicate OccursAt(s: string, i: nat) { i + 7 <= |s| && s[i..i + 7] == SEPARATOR }

  ghost predicate Occurs(s: string) { exists i: nat :: OccursAt(s, i) }

  function Pair(id: string, model: string): string { id + SEPARATOR + model }

  lemma JointPair(m: Metadata)
    ensures Joint(m) == "id=" + Pair(m.id, m.model)
  {
    assert [NUL] + "model=" == SEPARATOR;
  }

  /** Occurrences of the separator cannot overlap. */
  lemma Apart(s: string, i: nat, j: nat)
    requires OccursAt(s, i) && OccursAt(s, j) && i < j
    ensures i + 7 <= j
  {
    assert s[j] == s[j..j + 7][0] == NUL;
    assert forall k :: i < k < i + 7 ==> s[k] == s[i..i + 7][k - i];
  }

  lemma PairOccurs(id: string, model: string)
    ensures OccursAt(Pair(id, model), |id|)
  {
    assert Pair(id, model)[|id|..|id| + 7] == SEPARATOR;
  }

  /** A second way of splitting means an occurrence of the separator in a part. */
  lemma SplitTwice(id: string, model: string, id': string, model': string)
    requires Pair(id, model) == Pair(id', model') && |id'| != |id|
    ensures if |id'| < |id| then OccursAt(id, |id'|) else |id'| >= |id| + 7 && OccursAt(model, |id'| - |id| - 7)
  {
    var s := Pair(id, model);
    PairOccurs(id, model);
    PairOccurs(id', model');
    if |id'| < |id| {
      Apart(s, |id'|, |id|);
      assert id[|id'|..|id'| + 7] == s[|id'|..|id'| + 7];
    } else {
      Apart(s, |id|, |id'|);
      var i := |id'| - |id| - 7;
      assert model[i..i + 7] == s[|id'|..|id'| + 7];
    }
  }

  lemma SameLength(id: string, model: string, id': string, model': string)
    requires Pair(id, model) == Pair(id', model') && |id'| == |id|
    ensures id == id' && model == model'
  {
    var s := Pair(id, model);
    assert s[..|id|] == id && s[..|id|] == id';
    assert s[|id| + 7..] == model && s[|id| + 7..] == model';
  }

  /** Moving the boundary to another occurrence. */
  lemma Resplit(id: string, model: string) returns (id': string, model': string)
    requires Occurs(id) || Occurs(model)
    ensures Pair(id', model') == Pair(id, model) && id' != id
  {
    if Occurs(id) {
      var i: nat :| OccursAt(id, i);
      id', model' := id[..i], id[i + 7..] + SEPARATOR + model;
      assert id == id[..i] + SEPARATOR + id[i + 7..];
    } else {
      var i: nat :| OccursAt(model, i);
      id', model' := id + SEPARATOR + model[..i], model[i + 7..];
      assert model == model[..i] + SEPARATOR + model[i + 7..];
    }
  }

  lemma JointInjective(m: Metadata, n: Metadata)
    ensures Joint(m) == Joint(n) <==> Pair(m.id, m.model) == Pair(n.id, n.model)
  {
    JointPair(m);
    JointPair(n);
    assert Pair(m.id, m.model) == Joint(m)[3..] && Pair(n.id, n.model) == Joint(n)[3..];
  }

  /** Another advertisement has the same key. */
  ghost predicate Collides(p: Publication) { exists q :: Ordinary(q) && Key(q) == Key(p) && !SameFacts(p, q) }

  /** The exact condition: the separator occurs in the id or in the model. */
  lemma CollidesExactly(p: Publication)
    requires Ordinary(p)
    ensures Collides(p) <==> Occurs(p.meta.id) || Occurs(p.meta.model)
  {
    var m := p.meta;
    if Collides(p) {
      var q :| Ordinary(q) && Key(q) == Key(p) && !SameFacts(p, q);
      Separates(p, q);
    }
    if Occurs(m.id) || Occurs(m.model) {
      var id', model' := Resplit(m.id, m.model);
      var n := m.(id := id', model := model');
      var q := p.(meta := n);
      JointInjective(m, n);
      KeyFixesJoint(q, p);
      TxtParts(m, n);
      assert !SameFacts(p, q);
    }
  }

  lemma Separates(p: Publication, q: Publication)
    requires Ordinary(p) && Ordinary(q) && Key(q) == Key(p) && !SameFacts(p, q)
    ensures Occurs(p.meta.id) || Occurs(p.meta.model)
  {
    var m, n := p.meta, q.meta;
    KeyFixesJoint(p, q);
    JointInjective(m, n);
    TxtParts(m, n);
    if |m.id| == |n.id| {
      SameLength(m.id, m.model, n.id, n.model);
    } else {
      SplitTwice(m.id, m.model, n.id, n.model);
    }
  }

  /** An instance of it.  No device reports such an id, which is printed in
      hexadecimal; it takes a device_mac option written by hand. */
  lemma MetadataMayCollide(p: Publication)
    ensures var m := p.meta.(id := "a\0model=b", model := "c"); var n := p.meta.(id := "a", model := "b\0model=c");
            m != n && Key(p.(meta := m)) == Key(p.(meta := n))
  {
    var m := p.meta.(id := "a\0model=b", model := "c");
    var n := p.meta.(id := "a", model := "b\0model=c");
    MetadataShape(p.(meta := m));
    MetadataShape(p.(meta := n));
    assert Pair(m.id, m.model) == Pair(n.id, n.model);
    JointInjective(m, n);
  }
}
