/** Interface resolution, the building of keys, and the loop's closures over its
    variables. */
module DiscoveryCode {
  import opened Base
  import opened DiscoveryKeys
  import opened Discovery

  // -------------------------------------------------------------- resolution

  /** A parsed address without its zone, and the zone. */
  datatype Selector = Selector(address: int, zone: string, linkLocal6: bool)

  /** What the system answers: the LAN's interface names, all interfaces, how a
      configured value parses, and each interface's addresses as they parse; None
      where the answer is an error. */
  datatype Source = Source(lan: Option<seq<string>>, system: Option<seq<Iface>>,
                           parse: string -> Option<Selector>, addrs: Iface -> Option<seq<Option<Selector>>>)

  datatype Resolution = Failed | Resolved(interfaces: seq<Iface>)

  predicate Eligible(src: Source, i: Iface) {
    i.up && i.multicast && !i.loopback && src.lan.Some? && i.name in src.lan.value
  }

  predicate ByName(src: Source, configured: seq<string>, i: Iface) { i.name in configured && src.parse(i.name).None? }

  predicate Agrees(sel: Selector, c: Selector, i: Iface) {
    sel.address == c.address && (sel.zone == "" || sel.zone == i.name) && (c.zone == "" || c.zone == i.name)
  }

  predicate Asks(src: Source, configured: seq<string>, sel: Selector) {
    exists v :: v in configured && src.parse(v) == Some(sel)
  }

  predicate Answers(addresses: seq<Option<Selector>>, c: Selector) { Some(c) in addresses }

  ghost predicate ByAddress(src: Source, configured: seq<string>, i: Iface) {
    && src.addrs(i).Some?
    && exists sel, c :: Asks(src, configured, sel) && Answers(src.addrs(i).value, c) && Agrees(sel, c, i)
  }

  /** The interfaces that configuration asks for, by name or by an address. */
  ghost predicate Matches(src: Source, configured: seq<string>, i: Iface) {
    Eligible(src, i) && (ByName(src, configured, i) || ByAddress(src, configured, i))
  }

  /** The interface's addresses are needed and cannot be had. */
  ghost predicate Stuck(src: Source, configured: seq<string>, i: Iface) {
    && Eligible(src, i) && !ByName(src, configured, i) && src.addrs(i).None?
    && exists sel :: Asks(src, configured, sel)
  }

  ghost predicate LacksZone(src: Source, configured: seq<string>) {
    exists sel :: Asks(src, configured, sel) && sel.linkLocal6 && sel.zone == ""
  }

  ghost predicate Fails(src: Source, configured: seq<string>) {
    || src.lan.None? || src.system.None? || LacksZone(src, configured)
    || exists k :: 0 <= k < |src.system.value| && Stuck(src, configured, src.system.value[k])
  }

  predicate ByIndex(s: seq<Iface>) { forall i, j :: 0 <= i < j < |s| ==> s[i].index < s[j].index }

  /** The first of the matching interfaces with its index. */
  ghost predicate First(src: Source, configured: seq<string>, all: seq<Iface>, k: int) {
    && 0 <= k < |all| && Matches(src, configured, all[k])
    && forall j :: 0 <= j < k && Matches(src, configured, all[j]) ==> all[j].index != all[k].index
  }

  ghost predicate Picks(src: Source, configured: seq<string>, all: seq<Iface>, r: seq<Iface>) {
    forall x :: x in r <==> exists k :: First(src, configured, all, k) && all[k] == x
  }

  /** Index order and contents leave one list. */
  lemma {:induction false} ByIndexUnique(a: seq<Iface>, b: seq<Iface>)
    requires ByIndex(a) && ByIndex(b) && forall x :: x in a <==> x in b
    ensures a == b
    decreases |a|
  {
    FirstIn(b);
    if a == [] {
      assert b == [];
    } else {
      assert a[0] in a;
      assert b != [];
      assert b[0] in b;
      Head(a, b[0]);
      Head(b, a[0]);
      assert a[0] == b[0];
      Tail(a, b);
      ByIndexUnique(a[1..], b[1..]);
    }
  }

  lemma FirstIn(s: seq<Iface>)
    ensures s != [] ==> s[0] in s
  {}

  lemma Head(s: seq<Iface>, x: Iface)
    requires ByIndex(s) && x in s
    ensures s[0] == x || s[0].index < x.index
  {}

  lemma Tail(a: seq<Iface>, b: seq<Iface>)
    requires ByIndex(a) && ByIndex(b) && a != [] && b != [] && a[0] == b[0] && forall x :: x in a <==> x in b
    ensures forall x :: x in a[1..] <==> x in b[1..]
  {
    forall x ensures x in a[1..] <==> x in b[1..] {
      assert a == [a[0]] + a[1..] && b == [b[0]] + b[1..];
      assert x in a <==> x == a[0] || x in a[1..];
      assert x in b <==> x == b[0] || x in b[1..];
      assert a[0] !in a[1..] && b[0] !in b[1..];
    }
  }

  method Partition(src: Source, configured: seq<string>) returns (ok: bool, names: set<string>,
      selectors: seq<Selector>)
    ensures ok == !LacksZone(src, configured)
    ensures ok ==> forall n :: n in names <==> n in configured && src.parse(n).None?
    ensures ok ==> forall sel :: sel in selectors <==> Asks(src, configured, sel)
  {
    names, selectors := {}, [];
    for k := 0 to |configured|
      invariant forall n :: n in names <==> n in configured[..k] && src.parse(n).None?
      invariant forall sel :: sel in selectors <==> Asks(src, configured[..k], sel)
      invariant forall sel :: sel in selectors ==> !(sel.linkLocal6 && sel.zone == "")
    {
      var value := configured[k];
      assert configured[..k + 1] == configured[..k] + [value];
      assert forall v :: v in configured[..k + 1] <==> v in configured[..k] || v == value;
      match src.parse(value)
      case Some(sel) =>
        if sel.linkLocal6 && sel.zone == "" {
          assert value in configured;
          assert Asks(src, configured, sel);
          return false, {}, [];
        }
        selectors := selectors + [sel];
      case None => names := names + {value};
    }
    assert configured[..|configured|] == configured;
    ok := true;
  }

  method OwnsAny(i: Iface, addresses: seq<Option<Selector>>, selectors: seq<Selector>) returns (found: bool)
    ensures found == exists sel, c :: sel in selectors && Answers(addresses, c) && Agrees(sel, c, i)
  {
    for a := 0 to |addresses|
      invariant forall sel, c :: sel in selectors && Answers(addresses[..a], c) ==> !Agrees(sel, c, i)
    {
      assert addresses[..a + 1] == addresses[..a] + [addresses[a]];
      match addresses[a]
      case None =>
      case Some(candidate) =>
        for k := 0 to |selectors|
          invariant forall sel :: sel in selectors[..k] ==> !Agrees(sel, candidate, i)
        {
          if Agrees(selectors[k], candidate, i) {
            assert Answers(addresses, candidate) && selectors[k] in selectors;
            return true;
          }
          assert selectors[..k + 1] == selectors[..k] + [selectors[k]];
        }
        assert selectors[..|selectors|] == selectors;
    }
    assert addresses[..|addresses|] == addresses;
    found := false;
  }

  lemma Inserted(s: seq<Iface>, x: Iface, k: nat)
    requires ByIndex(s) && k <= |s|
    requires forall j :: 0 <= j < k ==> s[j].index < x.index
    requires k < |s| ==> x.index < s[k].index
    ensures ByIndex(s[..k] + [x] + s[k..])
  {
    assert forall j :: k <= j < |s| ==> x.index < s[j].index;
  }

  lemma InsertedMembers(s: seq<Iface>, x: Iface, k: nat)
    requires k <= |s|
    ensures forall y :: y in s[..k] + [x] + s[k..] <==> y in s || y == x
  {
    assert s == s[..k] + s[k..];
  }

  method Insert(s: seq<Iface>, x: Iface) returns (r: seq<Iface>)
    requires ByIndex(s) && forall y :: y in s ==> y.index != x.index
    ensures ByIndex(r) && forall y :: y in r <==> y in s || y == x
  {
    var k := 0;
    while k < |s| && s[k].index < x.index
      invariant 0 <= k <= |s| && forall j :: 0 <= j < k ==> s[j].index < x.index
    {
      k := k + 1;
    }
    r := s[..k] + [x] + s[k..];
    assert k < |s| ==> s[k] in s;
    Inserted(s, x, k);
    InsertedMembers(s, x, k);
  }

  method SortByIndex(s: seq<Iface>) returns (r: seq<Iface>)
    requires forall i, j :: 0 <= i < j < |s| ==> s[i].index != s[j].index
    ensures ByIndex(r) && forall y :: y in r <==> y in s
  {
    r := [];
    for k := 0 to |s|
      invariant ByIndex(r) && forall y :: y in r <==> y in s[..k]
    {
      assert s[..k + 1] == s[..k] + [s[k]];
      r := Insert(r, s[k]);
    }
    assert s[..|s|] == s;
  }

  method MatchesNow(src: Source, configured: seq<string>, names: set<string>, selectors: seq<Selector>, i: Iface)
    returns (stuck: bool, matches: bool)
    requires forall n :: n in names <==> n in configured && src.parse(n).None?
    requires forall sel :: sel in selectors <==> Asks(src, configured, sel)
    ensures stuck == Stuck(src, configured, i)
    ensures !stuck ==> matches == Matches(src, configured, i)
  {
    if !i.up || !i.multicast || i.loopback || src.lan.None? || i.name !in src.lan.value { return false, false; }
    matches := i.name in names;
    if !matches && |selectors| != 0 {
      assert Asks(src, configured, selectors[0]);
      match src.addrs(i)
      case None => return true, false;
      case Some(addresses) => matches := OwnsAny(i, addresses, selectors);
    } else {
      assert forall sel :: Asks(src, configured, sel) ==> sel in selectors;
    }
    stuck := false;
  }

  /** One more interface looked at. */
  lemma OneMore(src: Source, configured: seq<string>, all: seq<Iface>, k: nat, r: seq<Iface>, r': seq<Iface>)
    requires k < |all| && Picks(src, configured, all[..k], r)
    requires First(src, configured, all, k) ==> r' == r + [all[k]]
    requires !First(src, configured, all, k) ==> r' == r
    ensures Picks(src, configured, all[..k + 1], r')
  {
    var a, b := all[..k], all[..k + 1];
    forall j ensures First(src, configured, a, j) <==> First(src, configured, b, j) && j < k {
      if 0 <= j < k { assert forall i :: 0 <= i <= j ==> a[i] == b[i] == all[i]; }
    }
    assert First(src, configured, b, k) <==> First(src, configured, all, k) by {
      assert forall i :: 0 <= i <= k ==> b[i] == all[i];
    }
    forall x ensures x in r' <==> exists j :: First(src, configured, b, j) && b[j] == x {
      if j :| First(src, configured, b, j) && b[j] == x {
        if j < k { assert First(src, configured, a, j) && a[j] == x; }
      }
      if x in r {
        var j :| First(src, configured, a, j) && a[j] == x;
        assert First(src, configured, b, j) && b[j] == x;
      }
    }
  }

  /** Duplicates are known by their index. */
  lemma FreshMeansFirst(src: Source, configured: seq<string>, all: seq<Iface>, k: nat, r: seq<Iface>)
    requires k < |all| && Picks(src, configured, all[..k], r) && Matches(src, configured, all[k])
    ensures First(src, configured, all, k) <==> forall y :: y in r ==> y.index != all[k].index
  {
    var a := all[..k];
    forall y | y in r ensures First(src, configured, all, k) ==> y.index != all[k].index {
      var j :| First(src, configured, a, j) && a[j] == y;
      assert all[j] == y;
    }
    if !First(src, configured, all, k) {
      var j :| 0 <= j < k && Matches(src, configured, all[j]) && all[j].index == all[k].index;
      var e := Earliest(src, configured, a, j);
      assert a[e] in r;
    }
  }

  ghost function Earliest(src: Source, configured: seq<string>, all: seq<Iface>, j: nat): (e: nat)
    requires j < |all| && Matches(src, configured, all[j])
    ensures First(src, configured, all, e) && all[e].index == all[j].index
    decreases j
  {
    if i: nat :| i < j && Matches(src, configured, all[i]) && all[i].index == all[j].index
      then Earliest(src, configured, all, i) else j
  }

  /** Fails exactly when membership or the interfaces are unavailable, a link-local
      address has no zone, or the addresses of an interface that needs them are
      unavailable.  Otherwise: exactly the eligible interfaces asked for, the first
      of each index, in index order. */
  method ResolveInterfaces(src: Source, configured: seq<string>) returns (r: Resolution)
    ensures r.Failed? <==> Fails(src, configured)
    ensures r.Resolved? ==> ByIndex(r.interfaces) && Picks(src, configured, src.system.value, r.interfaces)
  {
    if src.lan.None? || src.system.None? { return Failed; }
    var ok, names, selectors := Partition(src, configured);
    if !ok { return Failed; }
    var all := src.system.value;
    var selected: seq<Iface> := [];
    var seen: set<nat> := {};
    for k := 0 to |all|
      invariant Picks(src, configured, all[..k], selected)
      invariant forall n :: n in seen <==> exists y :: y in selected && y.index == n
      invariant forall i, j :: 0 <= i < j < |selected| ==> selected[i].index != selected[j].index
      invariant forall j :: 0 <= j < k ==> !Stuck(src, configured, all[j])
    {
      var stuck, matches := MatchesNow(src, configured, names, selectors, all[k]);
      if stuck { return Failed; }
      if matches { FreshMeansFirst(src, configured, all, k, selected); }
      ghost var before := selected;
      if matches && all[k].index !in seen {
        selected := selected + [all[k]];
        seen := seen + {all[k].index};
      }
      OneMore(src, configured, all, k, before, selected);
    }
    assert all[..|all|] == all;
    var sorted := SortByIndex(selected);
    r := Resolved(sorted);
  }

  /** The contract leaves one result. */
  lemma ResolutionUnique(src: Source, configured: seq<string>, a: seq<Iface>, b: seq<Iface>)
    requires src.system.Some? && ByIndex(a) && ByIndex(b)
    requires Picks(src, configured, src.system.value, a) && Picks(src, configured, src.system.value, b)
    ensures a == b
  {
    ByIndexUnique(a, b);
  }

  // ------------------------------------------------------- what is wanted

  datatype Config = Config(enabled: bool, https: bool, httpsPort: nat, http: bool, httpPort: nat, mac: string,
      interfaces: seq<string>)

  datatype Identity = Identity(mac: string, model: string, cid: string, features: string)

  predicate Space(c: char) {
    || '\t' <= c <= '\r' || c in {' ', '\U{85}', '\U{A0}', '\U{1680}', '\U{2028}', '\U{2029}', '\U{202F}', '\U{205F}',
      '\U{3000}'}
    || '\U{2000}' <= c <= '\U{200A}'
  }

  predicate Blank(s: string) { forall k :: 0 <= k < |s| ==> Space(s[k]) }

  predicate HexDigit(c: char) { '0' <= c <= '9' || 'a' <= c <= 'f' }

  predicate IsFingerprint(s: string) { |s| == 64 && forall k :: 0 <= k < 64 ==> HexDigit(s[k]) }

  /** The device's own address if it has one, else the configured one. */
  predicate Identifies(mac: string, c: Config, device: Option<Identity>) {
    if device.Some? && device.value.mac != "" then mac == device.value.mac else mac == c.mac
  }

  /** Everything but the interfaces is in place: a port of the preferred scheme, an
      identity, and for HTTPS a fingerprint. */
  ghost predicate Ready(c: Config, device: Option<Identity>, fingerprint: Option<string>) {
    && c.enabled && (exists mac :: Identifies(mac, c, device) && !Blank(mac))
    && (c.https ==> c.httpsPort != 0 && fingerprint.Some? && IsFingerprint(fingerprint.value))
    && (!c.https ==> c.http && c.httpPort != 0)
  }

  method IsBlank(s: string) returns (b: bool)
    ensures b == Blank(s)
  {
    for k := 0 to |s|
      invariant forall j :: 0 <= j < k ==> Space(s[j])
    {
      if !Space(s[k]) { return false; }
    }
    b := true;
  }

  method CheckFingerprint(s: string) returns (ok: bool)
    ensures ok == IsFingerprint(s)
  {
    if |s| != 64 { return false; }
    for k := 0 to |s|
      invariant forall j :: 0 <= j < k ==> HexDigit(s[j])
    {
      if (s[k] < '0' || s[k] > '9') && (s[k] < 'a' || s[k] > 'f') { return false; }
    }
    ok := true;
  }

  /** Nothing is published until everything but the interfaces is in place; then a
      failed or empty resolution is an error, and anything else is published on
      exactly the resolved interfaces. The fingerprint comes trimmed and lower-case. */
  method Desire(cfg: Option<Config>, device: Option<Identity>, fingerprint: Option<string>, host: string,
      version: string, src: Source)
    returns (d: Desired)
    ensures d.Suppressed? <==> cfg.None? || !Ready(cfg.value, device, fingerprint)
    ensures !d.Suppressed? ==> (d.Unresolved? <==>
              Fails(src, cfg.value.interfaces) || forall k :: !First(src, cfg.value.interfaces, src.system.value, k))
    ensures d.Wanted? ==>
              && ByIndex(d.p.interfaces) && Picks(src, cfg.value.interfaces, src.system.value, d.p.interfaces)
              && (cfg.value.https ==> d.p.port == cfg.value.httpsPort && d.p.meta.tls == fingerprint.value)
              && (!cfg.value.https ==> d.p.port == cfg.value.httpPort && d.p.meta.tls == "none")
              && d.p.meta.version == version && Identifies(d.p.meta.id, cfg.value, device)
              && (device.Some? ==> d.p.meta.model == device.value.model && d.p.meta.cid == device.value.cid
                                   && d.p.meta.features == device.value.features)
              && (device.None? ==> d.p.meta.model == d.p.meta.cid == d.p.meta.features == "")
              && d.p.instance == (if Blank(host) then "Wattline " + d.p.meta.id else host)
  {
    if cfg.None? || !cfg.value.enabled { return Suppressed; }
    var c := cfg.value;
    var port := if c.https then c.httpsPort else if c.http then c.httpPort else 0;
    if port == 0 { return Suppressed; }
    var identity := Identity("", "", "", "");
    if device.Some? { identity := device.value; }
    if identity.mac == "" { identity := identity.(mac := c.mac); }
    assert Identifies(identity.mac, c, device);
    var blank := IsBlank(identity.mac);
    if blank { return Suppressed; }
    var tls := "none";
    if c.https {
      if fingerprint.None? { return Suppressed; }
      tls := fingerprint.value;
      var ok := CheckFingerprint(tls);
      if !ok { return Suppressed; }
    }
    var r := ResolveInterfaces(src, c.interfaces);
    if r.Failed? { return Unresolved; }
    if |r.interfaces| == 0 {
      ghost var all := src.system.value;
      assert forall k :: 0 <= k < |all| ==> all[k] !in r.interfaces;
      return Unresolved;
    }
    assert r.interfaces[0] in r.interfaces;
    var instance := host;
    var unnamed := IsBlank(host);
    if unnamed { instance := "Wattline " + identity.mac; }
    d := Wanted(Publication(instance, port, Metadata(version, identity.mac, identity.model, identity.cid,
        identity.features, tls), r.interfaces));
  }

  // ----------------------------------------------------------------- the keys

  method BuildFields(fs: seq<string>) returns (s: string)
    ensures s == Fields(fs)
  {
    s := "";
    for k := 0 to |fs|
      invariant s == Fields(fs[..k])
    {
      assert fs[..k + 1] == fs[..k] + [fs[k]];
      FieldsLast(fs[..k], fs[k]);
      s := s + [NUL] + fs[k];
    }
    assert fs[..|fs|] == fs;
  }

  method BuildKeys(p: Publication) returns (key: string, interfaceKey: string)
    ensures key == Key(p) && interfaceKey == InterfaceKey(p.interfaces)
  {
    var fields := BuildFields([Decimal(p.port)] + Txt(p.meta));
    interfaceKey := BuildFields(Segments(p.interfaces));
    key := p.instance + fields + interfaceKey;
  }

  // ----------------------------------------------------------------- the loop

  class Publisher {
    var active: Option<nat>
    var activeKey: string
    var activeInterfaceKey: string
    var retry: bool
    var retryAttempt: nat
    var revalidate: bool
    var identityKey: string
    var regs: seq<Reg>

    ghost function View(): Loop
      reads this
    {
      Loop(active, activeKey, activeInterfaceKey, retry, retryAttempt, revalidate, identityKey, regs)
    }

    ghost predicate Valid()
      reads this
    {
      Owned(View())
    }

    constructor ()
      ensures View() == START.v && Valid()
    {
      active, activeKey, activeInterfaceKey := None, "", "";
      retry, retryAttempt, revalidate := false, 0, false;
      identityKey, regs := "", [];
    }

    method StopRetry(reset: bool)
      modifies this`retry, this`retryAttempt
      ensures !retry && retryAttempt == if reset then 0 else old(retryAttempt)
    {
      if retry { retry := false; }
      if reset { retryAttempt := 0; }
    }

    method StopRevalidate()
      modifies this`revalidate
      ensures !revalidate
    {
      if revalidate { revalidate := false; }
    }

    method ScheduleRetryTimer(made: bool)
      modifies this`retry, this`retryAttempt
      ensures View() == ScheduleRetry(old(View()), made)
    {
      if retry { return; }
      if !made { return; }
      retry, retryAttempt := true, retryAttempt + 1;
    }

    method ScheduleRevalidateTimer(made: bool)
      modifies this`revalidate
      ensures View() == ScheduleRevalidate(old(View()), made)
    {
      if revalidate { return; }
      if made { revalidate := true; }
    }

    method ShutDown(i: nat)
      requires i < |regs|
      modifies this`regs
      ensures regs == old(regs)[i := old(regs)[i].(shutdowns := old(regs)[i].shutdowns + 1)]
    {
      regs := regs[i := regs[i].(shutdowns := regs[i].shutdowns + 1)];
    }

    method Withdraw()
      requires active.Some? ==> active.value < |regs|
      modifies this`active, this`activeKey, this`activeInterfaceKey, this`regs
      ensures View() == ShutActive(old(View()))
    {
      if active.Some? {
        ShutDown(active.value);
        active, activeKey, activeInterfaceKey := None, "", "";
      }
    }

    /** A successful registration is made the active one before the previous one is
        shut down. */
    method TakeOver(p: Publication, key: string, interfaceKey: string)
      requires active.Some? ==> active.value < |regs|
      requires key == Key(p) && interfaceKey == InterfaceKey(p.interfaces)
      modifies this`active, this`activeKey, this`activeInterfaceKey, this`regs
      ensures View() == Replace(old(View()), p)
    {
      var previous := active;
      regs := regs + [Reg(p, 0)];
      active, activeKey, activeInterfaceKey := Some(|regs| - 1), key, interfaceKey;
      if previous.Some? { ShutDown(previous.value); }
    }

    method Publish(p: Publication, inputs: Inputs)
      requires Valid() && inputs.desired == Wanted(p)
      modifies this
      ensures View() == Reconcile(old(View()), inputs)
    {
      var key, interfaceKey := BuildKeys(p);
      if key == activeKey {
        StopRetry(true);
        ScheduleRevalidateTimer(inputs.made);
        return;
      }
      if active.Some? && interfaceKey != activeInterfaceKey { Withdraw(); }
      if !inputs.registers {
        StopRevalidate();
        ScheduleRetryTimer(inputs.made);
        return;
      }
      StopRetry(true);
      StopRevalidate();
      TakeOver(p, key, interfaceKey);
      ScheduleRevalidateTimer(inputs.made);
    }

    method ReconcileNow(inputs: Inputs)
      requires Valid() && Proper(inputs)
      modifies this
      ensures View() == Reconcile(old(View()), inputs)
      ensures Valid() && Reconciled(View(), inputs)
    {
      ReconcileKeeps(View(), inputs);
      match inputs.desired
      case Unresolved =>
        StopRevalidate();
        Withdraw();
        ScheduleRetryTimer(inputs.made);
      case Suppressed =>
        StopRetry(true);
        StopRevalidate();
        Withdraw();
      case Wanted(p) => Publish(p, inputs);
    }

    /** What the event itself changes. */
    method Prepare(ev: Event)
      modifies this`retry, this`retryAttempt, this`revalidate, this`identityKey
      ensures View() == Prepared(old(View()), ev)
    {
      match ev
      case Begin(key, _) => identityKey := key;
      case Snapshot(key, _) => identityKey := key;
      case Refresh(_) => StopRetry(true); StopRevalidate();
      case RetryFires(_) => retry := false;
      case RevalidateFires(_) => revalidate := false;
      case Done => StopRetry(false); StopRevalidate();
    }

    /** What is deferred to the end. */
    method Finish()
      requires Valid()
      modifies this
      ensures View() == Step(old(View()), Done) && Valid() && active.None?
    {
      PreparedOwned(View(), Done);
      Prepare(Done);
      ShutOwned(View());
      Withdraw();
    }

    method Handle(ev: Event)
      requires Valid() && ProperEvent(ev) && Enabled(View(), ev)
      modifies this
      ensures View() == Step(old(View()), ev) && Valid()
    {
      if ev.Done? {
        Finish();
        return;
      }
      if ev.Snapshot? && ev.key == identityKey { return; }
      PreparedOwned(View(), ev);
      Prepare(ev);
      ReconcileNow(ev.inputs);
    }
  }
}
