/** The durable token store: in-memory records and their file.

    The commit point of every write is the rename of the new file over the old
    one; a write may fail before it (nothing changes), after it (the file has
    changed but an error is reported), or not at all.  Hashing and label
    checking are fixed functions carried by `Env`; JSON is the identity. */
module TokenStore {
  import opened Base
  import opened ByteOrder

  const BOOTSTRAP_ID := "bootstrap"
  const BOOTSTRAP_LABEL := "Bootstrap administrator"
  const PERSIST_INTERVAL := 3_600_000_000_000
  const ZERO_TIME := 0

  datatype Env = Env(hash: string -> string, labelOk: string -> bool)

  datatype Rec = Rec(id: string, name: string, createdAt: int, lastSeen: Option<int>, bootstrap: bool, hash: string,
      persistedSeen: Option<int>)

  /** A token as the file holds it. */
  datatype Token = Token(id: string, name: string, createdAt: int, lastSeen: Option<int>, bootstrap: bool, hash: string)

  datatype Disk = Absent | Unreadable | File(owned: bool, tokens: seq<Token>)

  datatype Fault = NoFault | BeforeRename | AfterRename

  type Records = map<string, Rec>

  /** Channels are numbered as they are handed out; `closed` counts the closes of each. */
  datatype Store = Store(records: Records, seenPersistedAt: int, invalidated: bool,
                         subs: map<string, set<nat>>, next: nat, closed: multiset<nat>, cancelled: set<nat>)

  // -------------------------------------------------------------- validation

  predicate IsHex(s: string) {
    forall i :: 0 <= i < |s| ==> '0' <= s[i] <= '9' || 'a' <= s[i] <= 'f'
  }

  predicate ValidHash(h: string) { |h| == 64 && IsHex(h) }

  /** SHA-256 in hex. */
  ghost predicate GoodEnv(env: Env) { forall s :: ValidHash(env.hash(s)) }

  predicate ValidToken(env: Env, t: Token) {
    && (if t.id == BOOTSTRAP_ID then t.bootstrap
        else !t.bootstrap && |t.id| == 16 && IsHex(t.id) && env.labelOk(t.name))
    && t.createdAt != ZERO_TIME
    && (t.lastSeen.Some? ==> t.createdAt <= t.lastSeen.value)
    && ValidHash(t.hash)
  }

  predicate SameHash(records: Records, a: string, b: string) {
    a in records && b in records && records[a].hash == records[b].hash
  }

  ghost predicate UniqueHashes(records: Records) {
    forall a, b :: SameHash(records, a, b) ==> a == b
  }

  // ------------------------------------------------------------- persistence

  function ToToken(r: Rec, flush: bool): Token {
    Token(r.id, r.name, r.createdAt, if flush then r.lastSeen else r.persistedSeen, r.bootstrap, r.hash)
  }

  function FromToken(t: Token): Rec {
    Rec(t.id, t.name, t.createdAt, t.lastSeen, t.bootstrap, t.hash, t.lastSeen)
  }

  ghost function Flagged(records: Records, flag: bool): set<string> {
    set id | id in records && records[id].bootstrap == flag
  }

  ghost function TokensOf(ids: seq<string>, records: Records, flush: bool): seq<Token>
    requires forall id :: id in ids ==> id in records
  {
    seq(|ids|, i requires 0 <= i < |ids| => assert ids[i] in ids; ToToken(records[ids[i]], flush))
  }

  /** What persistLocked writes: bootstrap first, then by ID. */
  ghost function Encode(records: Records, flush: bool): seq<Token> {
    TokensOf(Sorted(Flagged(records, true)) + Sorted(Flagged(records, false)), records, flush)
  }

  datatype Persisted = Persisted(disk: Disk, committed: bool, failed: bool)

  ghost function Persist(records: Records, disk: Disk, flush: bool, fault: Fault): Persisted {
    match fault
    case NoFault => Persisted(File(true, Encode(records, flush)), true, false)
    case AfterRename => Persisted(File(true, Encode(records, flush)), true, true)
    case BeforeRename => Persisted(disk, false, true)
  }

  // ----------------------------------------------------------------- opening

  datatype Loaded = Loaded(records: Records, seen: int) | Rejected

  function Load(env: Env, tokens: seq<Token>, records: Records, hashes: set<string>, seen: int): Loaded
    decreases |tokens|
  {
    if tokens == [] then Loaded(records, seen)
    else
      var t := tokens[0];
      if !ValidToken(env, t) || t.id in records || t.hash in hashes then Rejected
      else Load(env, tokens[1..], records[t.id := FromToken(t)], hashes + {t.hash}, Later(t, seen))
  }

  function Later(t: Token, seen: int): int { if t.lastSeen.Some?
      && t.lastSeen.value > seen then t.lastSeen.value else seen }

  datatype Opened = Opened(store: Option<Store>, disk: Disk)

  function Fresh(records: Records, seen: int): Store { Store(records, seen, false, map[], 0, multiset{}, {}) }

  /** The second half of opening, once the file has been read. */
  ghost function Adopt(env: Env, disk: Disk, secret: string, now: int, fault: Fault, records: Records,
      seen: int): Opened {
    var known := BOOTSTRAP_ID in records;
    var hash := env.hash(secret);
    if known && !records[BOOTSTRAP_ID].bootstrap then Opened(None, disk)
    else
      var boot := if known then records[BOOTSTRAP_ID].(hash := hash, name := BOOTSTRAP_LABEL)
                  else Rec(BOOTSTRAP_ID, BOOTSTRAP_LABEL, now, None, true, hash, None);
      var records' := records[BOOTSTRAP_ID := boot];
      var changed := !disk.File? || !disk.owned || records' != records;
      if !UniqueHashes(records') then Opened(None, disk)
      else if !changed then Opened(Some(Fresh(records', seen)), disk)
      else
        var p := Persist(records', disk, false, fault);
        Opened(if p.failed then None else Some(Fresh(records', seen)), p.disk)
  }

  ghost function Open(env: Env, disk: Disk, secret: string, now: int, fault: Fault): Opened {
    if secret == "" || disk.Unreadable? then Opened(None, disk)
    else
      match (if disk.File? then Load(env, disk.tokens, map[], {}, ZERO_TIME) else Loaded(map[], ZERO_TIME))
      case Rejected => Opened(None, disk)
      case Loaded(records, seen) => Adopt(env, disk, secret, now, fault, records, seen)
  }

  lemma StillUnique(a: Records, b: Records)
    requires UniqueHashes(a) && forall id :: id in b ==> id in a && b[id].hash == a[id].hash
    ensures UniqueHashes(b)
  {
    forall x, y | SameHash(b, x, y) ensures x == y { assert SameHash(a, x, y); }
  }

  // -------------------------------------------------------------- operations

  datatype Op =
    | Authenticate(secret: string)
    | Issue(name: string, payload: Option<string>)
    | Revoke(id: string)
    | Subscribe(id: string)
    | Cancel(id: string, ch: nat)
    | Invalidate

  datatype Reply =
    | Denied
    | Principal(id: string, admin: bool)
    | Secret(id: string, secret: string)
    | Revoked
    | Channel(ch: nat)
    | Active
    | Refused
    | Nothing

  datatype After = After(store: Store, disk: Disk, reply: Reply)

  function Clamp(r: Rec, now: int): int {
    var t := if now < r.createdAt then r.createdAt else now;
    if r.lastSeen.Some? && t < r.lastSeen.value then r.lastSeen.value else t
  }

  function Flushed(records: Records): Records {
    map id | id in records :: records[id].(persistedSeen := records[id].lastSeen)
  }

  /** The record whose hash the secret has; hashes being distinct, there is at most one. */
  ghost function Match(env: Env, records: Records, secret: string): (id: Option<string>)
    ensures id.Some? ==> id.value in records && records[id.value].hash == env.hash(secret)
    ensures id.None? ==> forall i :: i in records ==> records[i].hash != env.hash(secret)
  {
    if exists i :: i in records && records[i].hash == env.hash(secret) then
      var i :| i in records && records[i].hash == env.hash(secret); Some(i)
    else None
  }

  function Touch(records: Records, id: string, now: int): Records
    requires id in records
  {
    records[id := records[id].(lastSeen := Some(Clamp(records[id], now)))]
  }

  ghost function Seen(s: Store, disk: Disk, id: string, now: int, fault: Fault): After
    requires id in s.records
  {
    var t := Clamp(s.records[id], now);
    var records' := Touch(s.records, id, now);
    var reply := Principal(s.records[id].id, s.records[id].bootstrap);
    if s.seenPersistedAt == ZERO_TIME || t - s.seenPersistedAt >= PERSIST_INTERVAL then
      var p := Persist(records', disk, true, fault);
      After(if p.committed then s.(records := Flushed(records'), seenPersistedAt := t)
          else s.(records := records'), p.disk, reply)
    else After(s.(records := records'), disk, reply)
  }

  ghost function DoAuthenticate(env: Env, s: Store, disk: Disk, secret: string, now: int, fault: Fault): After {
    match Match(env, s.records, secret)
    case None => After(s, disk, Denied)
    case Some(id) => Seen(s, disk, id, now, fault)
  }

  ghost function DoIssue(env: Env, s: Store, disk: Disk, name: string, payload: Option<string>, now: int,
      fault: Fault): After {
    if !env.labelOk(name) || payload.None? || |payload.value| < 16 then After(s, disk, Refused)
    else
      var id, secret := payload.value[..16], "wlt_" + payload.value;
      var records' := s.records[id := Rec(id, name, now, None, false, env.hash(secret), None)];
      if id in s.records || !UniqueHashes(records') then After(s, disk, Refused)
      else
        var p := Persist(records', disk, false, fault);
        if p.failed && !p.committed then After(s, disk, Refused)
        else After(s.(records := records'), p.disk, Secret(id, secret))
  }

  function Notify(s: Store, id: string): Store {
    if id in s.subs then s.(closed := s.closed + multiset(s.subs[id]), subs := s.subs - {id}) else s
  }

  ghost function DoRevoke(s: Store, disk: Disk, id: string, fault: Fault): After {
    if id == BOOTSTRAP_ID || id !in s.records || s.records[id].bootstrap then After(s, disk, Refused)
    else
      var p := Persist(s.records - {id}, disk, false, fault);
      if p.failed && !p.committed then After(s, disk, Refused)
      else
        var s' := s.(records := s.records - {id});
        After(Notify(s', id), p.disk, Revoked)
  }

  function DoSubscribe(s: Store, id: string): (Store, Reply) {
    if id == BOOTSTRAP_ID then (s, Active)
    else if s.invalidated || id !in s.records || s.records[id].bootstrap then (s, Refused)
    else (s.(next := s.next + 1, subs := s.subs[id := (if id in s.subs then s.subs[id] else {}) + {s.next}]),
        Channel(s.next))
  }

  function DoCancel(s: Store, id: string, ch: nat): Store {
    if id in s.subs && ch in s.subs[id] then
      var left := s.subs[id] - {ch};
      s.(subs := if left == {} then s.subs - {id} else s.subs[id := left], cancelled := s.cancelled + {ch})
    else s
  }

  ghost function Channels(subs: map<string, set<nat>>): set<nat> {
    set id, c | id in subs && c in subs[id] :: c
  }

  ghost function DoInvalidate(s: Store): Store {
    s.(invalidated := true, closed := s.closed + multiset(Channels(s.subs)), subs := map[])
  }

  ghost function Do(env: Env, s: Store, disk: Disk, op: Op, now: int, fault: Fault): After {
    match op
    case Authenticate(secret) => DoAuthenticate(env, s, disk, secret, now, fault)
    case Issue(name, payload) => DoIssue(env, s, disk, name, payload, now, fault)
    case Revoke(id) => DoRevoke(s, disk, id, fault)
    case Subscribe(id) => var (s', reply) := DoSubscribe(s, id); After(s', disk, reply)
    case Cancel(id, ch) => After(DoCancel(s, id, ch), disk, Nothing)
    case Invalidate => After(DoInvalidate(s), disk, Nothing)
  }

  // --------------------------------------------------------------- invariant

  ghost predicate ValidRec(env: Env, id: string, r: Rec) {
    r.id == id && ValidToken(env, ToToken(r, true)) && ValidToken(env, ToToken(r, false))
  }

  ghost predicate ValidRecords(env: Env, records: Records, secret: string) {
    && (forall id {:trigger ValidRec(env, id, records[id])} :: id in records ==> ValidRec(env, id, records[id]))
    && UniqueHashes(records)
    && BOOTSTRAP_ID in records && records[BOOTSTRAP_ID].name == BOOTSTRAP_LABEL
      && records[BOOTSTRAP_ID].hash == env.hash(secret)
  }

  ghost predicate Has(tokens: seq<Token>, id: string) { exists i :: 0 <= i < |tokens| && tokens[i].id == id }

  /** The file lists each record's projection exactly once. */
  ghost predicate Lists(tokens: seq<Token>, records: Records, flush: bool) {
    && (forall i, j :: 0 <= i < j < |tokens| ==> tokens[i].id != tokens[j].id)
    && (forall i :: 0 <= i < |tokens| ==> tokens[i].id in records && tokens[i] == ToToken(records[tokens[i].id], flush))
    && (forall id {:trigger Has(tokens, id)} :: id in records ==> Has(tokens, id))
  }

  ghost predicate Mirrors(disk: Disk, records: Records) {
    disk.File? && disk.owned && Lists(disk.tokens, records, false)
  }

  predicate Waiting(subs: map<string, set<nat>>, id: string, c: nat) { id in subs && c in subs[id] }

  /** Every channel handed out is waiting, was cancelled, or was closed once. */
  ghost predicate ValidSubs(s: Store) {
    && (forall id :: id in s.subs ==> id in s.records && !s.records[id].bootstrap && !s.invalidated)
    && (forall a, b, c: nat :: Waiting(s.subs, a, c) && Waiting(s.subs, b, c) ==> a == b)
    && (forall c :: s.closed[c] <= 1)
    && (forall c :: c in s.closed ==> c !in s.cancelled && c < s.next)
    && (forall c :: c in s.cancelled ==> c < s.next)
    && (forall id, c: nat :: Waiting(s.subs, id, c) ==> c !in s.closed && c !in s.cancelled && c < s.next)
    && (forall c: nat :: c < s.next ==> c in s.closed || c in s.cancelled || exists id :: Waiting(s.subs, id, c))
  }

  ghost predicate Consistent(env: Env, s: Store, disk: Disk, secret: string) {
    ValidRecords(env, s.records, secret) && Mirrors(disk, s.records) && ValidSubs(s)
  }

  // ------------------------------------------------------------ file contents

  lemma EncodeLists(records: Records, flush: bool)
    requires forall id :: id in records ==> records[id].id == id
    ensures Lists(Encode(records, flush), records, flush)
  {
    var a, b := Sorted(Flagged(records, true)), Sorted(Flagged(records, false));
    var ids, tokens := a + b, Encode(records, flush);
    AscendingDistinct(a);
    AscendingDistinct(b);
    forall i, j | 0 <= i < j < |ids| ensures ids[i] != ids[j] {
      if i < |a| <= j {
        assert a[i] in a && b[j - |a|] in b;
      }
    }
    forall i | 0 <= i < |ids| ensures ids[i] in records && tokens[i] == ToToken(records[ids[i]], flush) {
      assert ids[i] in ids;
    }
    forall id | id in records ensures Has(tokens, id) {
      assert id in ids;
      var i :| 0 <= i < |ids| && ids[i] == id;
      assert tokens[i].id == id;
    }
  }

  /** The bootstrap token comes first, and then the others by identifier. */
  predicate Before(t: Token, u: Token) { if t.bootstrap == u.bootstrap then Less(t.id, u.id) else t.bootstrap }

  lemma EncodeOrdered(records: Records, flush: bool)
    requires forall id :: id in records ==> records[id].id == id
    ensures var tokens := Encode(records, flush); forall i, j :: 0 <= i < j < |tokens| ==> Before(tokens[i], tokens[j])
  {
    var a, b := Sorted(Flagged(records, true)), Sorted(Flagged(records, false));
    var ids, tokens := a + b, Encode(records, flush);
    forall i | 0 <= i < |ids|
      ensures ids[i] in records && tokens[i].id == ids[i] && (tokens[i].bootstrap <==> i < |a|)
    {
      assert ids[i] in ids;
      if i < |a| { assert a[i] in a; } else { assert b[i - |a|] in b; }
    }
    forall i, j | 0 <= i < j < |tokens| ensures Before(tokens[i], tokens[j]) {
      assert j < |a| || |a| <= i || (i < |a| <= j);
      if j < |a| { assert Less(a[i], a[j]); }
      if |a| <= i { assert Less(b[i - |a|], b[j - |a|]); }
    }
  }

  ghost function FromTokens(tokens: seq<Token>): Records
    decreases |tokens|
  {
    if tokens == [] then map[] else map[tokens[0].id := FromToken(tokens[0])] + FromTokens(tokens[1..])
  }

  ghost predicate Loadable(env: Env, tokens: seq<Token>) {
    && (forall t :: t in tokens ==> ValidToken(env, t))
    && (forall i, j :: 0 <= i < j < |tokens| ==> tokens[i].id != tokens[j].id && tokens[i].hash != tokens[j].hash)
  }

  lemma {:induction false} FromTokensAt(tokens: seq<Token>, i: nat)
    requires i < |tokens| && forall i, j :: 0 <= i < j < |tokens| ==> tokens[i].id != tokens[j].id
    ensures tokens[i].id in FromTokens(tokens) && FromTokens(tokens)[tokens[i].id] == FromToken(tokens[i])
    decreases |tokens|
  {
    var rest := tokens[1..];
    if i > 0 {
      assert rest[i - 1] == tokens[i];
      FromTokensAt(rest, i - 1);
    } else if tokens[0].id in FromTokens(rest) {
      var j := FromTokensOnly(rest, tokens[0].id);
    }
  }

  lemma {:induction false} FromTokensOnly(tokens: seq<Token>, id: string) returns (i: nat)
    requires id in FromTokens(tokens)
    ensures i < |tokens| && tokens[i].id == id
    decreases |tokens|
  {
    if tokens[0].id == id {
      i := 0;
    } else {
      i := FromTokensOnly(tokens[1..], id);
      i := i + 1;
    }
  }

  ghost predicate Unseen(tokens: seq<Token>, records: Records, hashes: set<string>) {
    forall t :: t in tokens ==> t.id !in records && t.hash !in hashes
  }

  lemma UnseenCons(t: Token, rest: seq<Token>, records: Records, hashes: set<string>)
    ensures Unseen([t] + rest, records, hashes) && (forall u :: u in rest ==> u.id != t.id && u.hash != t.hash) <==>
            t.id !in records && t.hash !in hashes && Unseen(rest, records[t.id := FromToken(t)], hashes + {t.hash})
  {
    var all := [t] + rest;
    assert t in all && forall u :: u in all <==> u == t || u in rest;
    if Unseen(all, records, hashes) {
      forall u | u in rest ensures u.id !in records && u.hash !in hashes { assert u in all; }
    }
  }

  lemma {:induction false} LoadAccepts(env: Env, tokens: seq<Token>, records: Records, hashes: set<string>, seen: int)
    ensures Load(env, tokens, records, hashes, seen).Loaded? <==>
            Loadable(env, tokens) && Unseen(tokens, records, hashes)
    decreases |tokens|
  {
    if tokens != [] {
      var t, rest := tokens[0], tokens[1..];
      assert tokens == [t] + rest;
      LoadableCons(env, t, rest);
      UnseenCons(t, rest, records, hashes);
      LoadAccepts(env, rest, records[t.id := FromToken(t)], hashes + {t.hash}, Later(t, seen));
    }
  }

  lemma {:induction false} LoadRecords(env: Env, tokens: seq<Token>, records: Records, hashes: set<string>, seen: int)
    ensures var r := Load(env, tokens, records, hashes, seen); r.Loaded? ==> r.records == records + FromTokens(tokens)
    decreases |tokens|
  {
    if tokens == [] {
      assert records + FromTokens(tokens) == records;
    } else {
      var t, rest := tokens[0], tokens[1..];
      LoadRecords(env, rest, records[t.id := FromToken(t)], hashes + {t.hash}, Later(t, seen));
      assert records[t.id := FromToken(t)] + FromTokens(rest) == records + FromTokens(tokens);
    }
  }

  /** The reading loop accepts exactly the loadable files, and reads what they say. */
  lemma LoadExactly(env: Env, tokens: seq<Token>)
    ensures Load(env, tokens, map[], {}, ZERO_TIME).Loaded? <==> Loadable(env, tokens)
    ensures var r := Load(env, tokens, map[], {}, ZERO_TIME); r.Loaded? ==> r.records == FromTokens(tokens)
  {
    LoadAccepts(env, tokens, map[], {}, ZERO_TIME);
    LoadRecords(env, tokens, map[], {}, ZERO_TIME);
    assert map[] + FromTokens(tokens) == FromTokens(tokens);
  }

  lemma LoadableCons(env: Env, t: Token, rest: seq<Token>)
    ensures Loadable(env, [t] + rest) <==>
            ValidToken(env, t) && Loadable(env, rest) && forall u :: u in rest ==> u.id != t.id && u.hash != t.hash
  {
    var all := [t] + rest;
    if Loadable(env, all) {
      forall u | u in rest ensures ValidToken(env, u) && u.id != t.id && u.hash != t.hash {
        var i :| 0 <= i < |rest| && rest[i] == u;
        assert all[i + 1] == u && all[0] == t;
      }
      forall i, j | 0 <= i < j < |rest| ensures rest[i].id != rest[j].id && rest[i].hash != rest[j].hash {
        assert all[i + 1] == rest[i] && all[j + 1] == rest[j];
      }
      assert all[0] == t && t in all;
    }
    if ValidToken(env, t) && Loadable(env, rest) && forall u :: u in rest ==> u.id != t.id && u.hash != t.hash {
      forall i, j | 0 <= i < j < |all| ensures all[i].id != all[j].id && all[i].hash != all[j].hash {
        assert all[j] == rest[j - 1] && rest[j - 1] in rest;
        if i > 0 { assert all[i] == rest[i - 1]; }
      }
    }
  }

  // ------------------------------------------------------------ main results

  function Reloaded(records: Records): Records {
    map id | id in records :: records[id].(lastSeen := records[id].persistedSeen)
  }

  lemma ListsLoadable(env: Env, records: Records, secret: string, tokens: seq<Token>)
    requires ValidRecords(env, records, secret) && Lists(tokens, records, false)
    ensures Loadable(env, tokens)
  {
    forall i | 0 <= i < |tokens| ensures ValidToken(env, tokens[i]) {
      assert ValidRec(env, tokens[i].id, records[tokens[i].id]);
    }
    forall i, j | 0 <= i < j < |tokens| ensures tokens[i].hash != tokens[j].hash {
      assert !SameHash(records, tokens[i].id, tokens[j].id);
    }
  }

  lemma ListsReload(records: Records, tokens: seq<Token>)
    requires Lists(tokens, records, false) && forall id :: id in records ==> records[id].id == id
    ensures FromTokens(tokens) == Reloaded(records)
  {
    var m := FromTokens(tokens);
    forall id | id in m ensures id in records {
      var i := FromTokensOnly(tokens, id);
    }
    forall id | id in records ensures id in m && m[id] == Reloaded(records)[id] {
      assert Has(tokens, id);
      var i :| 0 <= i < |tokens| && tokens[i].id == id;
      FromTokensAt(tokens, i);
    }
  }

  lemma ReloadedValid(env: Env, records: Records, disk: Disk, secret: string)
    requires ValidRecords(env, records, secret) && Mirrors(disk, records)
    ensures ValidRecords(env, Reloaded(records), secret) && Mirrors(disk, Reloaded(records))
  {
    var r := Reloaded(records);
    StillUnique(records, r);
    forall id | id in r ensures ValidRec(env, id, r[id]) && ToToken(r[id], false) == ToToken(records[id], false) {
      assert ValidRec(env, id, records[id]);
    }
  }

  lemma AdoptUnchanged(env: Env, disk: Disk, secret: string, now: int, fault: Fault, records: Records, seen: int)
    requires ValidRecords(env, records, secret) && Mirrors(disk, records)
    ensures Adopt(env, disk, secret, now, fault, records, seen) == Opened(Some(Fresh(records, seen)), disk)
  {
    var boot := records[BOOTSTRAP_ID];
    assert ValidRec(env, BOOTSTRAP_ID, boot);
    assert boot.(hash := env.hash(secret), name := BOOTSTRAP_LABEL) == boot;
    assert records[BOOTSTRAP_ID := boot] == records;
  }

  lemma ReadBack(env: Env, records: Records, tokens: seq<Token>, secret: string) returns (seen: int)
    requires ValidRecords(env, records, secret) && Lists(tokens, records, false)
    ensures Load(env, tokens, map[], {}, ZERO_TIME) == Loaded(Reloaded(records), seen)
  {
    ListsLoadable(env, records, secret, tokens);
    forall id | id in records ensures records[id].id == id { assert ValidRec(env, id, records[id]); }
    ListsReload(records, tokens);
    LoadExactly(env, tokens);
    assert map[] + FromTokens(tokens) == Reloaded(records);
    seen := Load(env, tokens, map[], {}, ZERO_TIME).seen;
  }

  /** Reopening the file of a consistent store with the same bootstrap secret
      succeeds without writing, and rebuilds the same records with the last-seen
      times that had been persisted. */
  lemma Reopen(env: Env, s: Store, disk: Disk, secret: string, now: int, fault: Fault)
    requires secret != "" && Consistent(env, s, disk, secret)
    ensures var o := Open(env, disk, secret, now, fault);
            && o.disk == disk && o.store.Some?
            && o.store.value.records == Reloaded(s.records) && !o.store.value.invalidated
            && Consistent(env, o.store.value, disk, secret)
  {
    var seen := ReadBack(env, s.records, disk.tokens, secret);
    ReloadedValid(env, s.records, disk, secret);
    AdoptUnchanged(env, disk, secret, now, fault, Reloaded(s.records), seen);
  }

  lemma LoadedValid(env: Env, tokens: seq<Token>)
    requires Loadable(env, tokens)
    ensures forall id :: id in FromTokens(tokens) ==> ValidRec(env, id, FromTokens(tokens)[id])
    ensures Lists(tokens, FromTokens(tokens), false)
  {
    var m := FromTokens(tokens);
    forall id | id in m ensures ValidRec(env, id, m[id]) && Has(tokens, id) {
      var i := FromTokensOnly(tokens, id);
      FromTokensAt(tokens, i);
      assert tokens[i] in tokens && ToToken(FromToken(tokens[i]), false) == tokens[i];
    }
    forall i | 0 <= i < |tokens| ensures tokens[i].id in m && tokens[i] == ToToken(m[tokens[i].id], false) {
      FromTokensAt(tokens, i);
    }
  }

  lemma AdoptedValid(env: Env, disk: Disk, secret: string, now: int, fault: Fault, records: Records, seen: int)
    requires GoodEnv(env) && now != ZERO_TIME
    requires forall id :: id in records ==> ValidRec(env, id, records[id])
    ensures var o := Adopt(env, disk, secret, now, fault, records, seen);
            o.store.Some? ==> ValidRecords(env, o.store.value.records, secret)
  {
    var o := Adopt(env, disk, secret, now, fault, records, seen);
    if o.store.Some? {
      var records' := o.store.value.records;
      forall id | id in records' ensures ValidRec(env, id, records'[id]) {
        if id != BOOTSTRAP_ID { assert ValidRec(env, id, records[id]); }
        if BOOTSTRAP_ID in records { assert ValidRec(env, BOOTSTRAP_ID, records[BOOTSTRAP_ID]); }
      }
    }
  }

  lemma AdoptEstablishes(env: Env, disk: Disk, secret: string, now: int, fault: Fault, records: Records, seen: int)
    requires GoodEnv(env) && now != ZERO_TIME
    requires forall id :: id in records ==> ValidRec(env, id, records[id])
    requires disk.File? ==> Lists(disk.tokens, records, false)
    ensures var o := Adopt(env, disk, secret, now, fault, records, seen);
            o.store.Some? ==> Consistent(env, o.store.value, o.disk, secret)
  {
    var o := Adopt(env, disk, secret, now, fault, records, seen);
    if o.store.Some? {
      var records' := o.store.value.records;
      AdoptedValid(env, disk, secret, now, fault, records, seen);
      IdsMatch(env, records', secret);
      EncodeLists(records', false);
    }
  }

  /** Whatever file it found, a store that opened is consistent with its file. */
  lemma OpenEstablishes(env: Env, disk: Disk, secret: string, now: int, fault: Fault)
    requires GoodEnv(env) && now != ZERO_TIME
    ensures var o := Open(env, disk, secret, now, fault);
            o.store.Some? ==> Consistent(env, o.store.value, o.disk, secret)
  {
    if secret != "" && disk.File? {
      LoadExactly(env, disk.tokens);
      var l := Load(env, disk.tokens, map[], {}, ZERO_TIME);
      if l.Loaded? {
        LoadedValid(env, disk.tokens);
        AdoptEstablishes(env, disk, secret, now, fault, l.records, l.seen);
      }
    } else if secret != "" && disk.Absent? {
      AdoptEstablishes(env, disk, secret, now, fault, map[], ZERO_TIME);
    }
  }

  // ------------------------------------------------------- every operation

  /** A clock reading is not Go's zero time and random payloads are 32 bytes in hex. */
  predicate LegalOp(op: Op, now: int) {
    now != ZERO_TIME && (op.Issue? && op.payload.Some? ==> |op.payload.value| == 64 && IsHex(op.payload.value))
  }

  lemma PersistMirrors(records: Records, disk: Disk, flush: bool, fault: Fault)
    requires forall id :: id in records ==> records[id].id == id
    ensures var p := Persist(records, disk, flush, fault);
            if p.committed then p.disk.File? && p.disk.owned && Lists(p.disk.tokens, records, flush) else p.disk == disk
  {
    EncodeLists(records, flush);
  }

  /** Only the unpersisted part of the records changed. */
  ghost predicate SameOnDisk(a: Records, b: Records) {
    a.Keys == b.Keys && forall id :: id in a ==> ToToken(a[id], false) == ToToken(b[id], false)
  }

  /** No record disappeared or changed its role. */
  ghost predicate SameFlags(a: Records, b: Records) {
    forall id :: id in a ==> id in b && b[id].bootstrap == a[id].bootstrap
  }

  lemma StillMirrors(disk: Disk, a: Records, b: Records)
    requires Mirrors(disk, a) && SameOnDisk(a, b)
    ensures Mirrors(disk, b)
  {
    forall i | 0 <= i < |disk.tokens| ensures disk.tokens[i].id in b
        && disk.tokens[i] == ToToken(b[disk.tokens[i].id], false) {
      assert disk.tokens[i].id in a;
    }
  }

  lemma TouchUnique(records: Records, id: string, now: int)
    requires UniqueHashes(records) && id in records
    ensures UniqueHashes(Touch(records, id, now)) && SameOnDisk(records, Touch(records, id, now))
  {
    StillUnique(records, Touch(records, id, now));
  }

  lemma TouchValid(env: Env, records: Records, secret: string, id: string, now: int)
    requires ValidRecords(env, records, secret) && id in records
    ensures ValidRecords(env, Touch(records, id, now), secret)
  {
    TouchUnique(records, id, now);
    var records' := Touch(records, id, now);
    forall i | i in records' ensures ValidRec(env, i, records'[i]) { assert ValidRec(env, i, records[i]); }
  }

  lemma FlushedValid(env: Env, records: Records, secret: string, tokens: seq<Token>)
    requires ValidRecords(env, records, secret) && Lists(tokens, records, true)
    ensures ValidRecords(env, Flushed(records), secret) && Lists(tokens, Flushed(records), false)
  {
    var f := Flushed(records);
    StillUnique(records, f);
    forall id | id in f ensures ValidRec(env, id, f[id]) && ToToken(f[id], false) == ToToken(records[id], true) {
      assert ValidRec(env, id, records[id]);
    }
  }

  lemma IdsMatch(env: Env, records: Records, secret: string)
    requires ValidRecords(env, records, secret)
    ensures forall id :: id in records ==> records[id].id == id
  {
    forall id | id in records ensures records[id].id == id { assert ValidRec(env, id, records[id]); }
  }

  lemma FlushKeeps(env: Env, records: Records, disk: Disk, secret: string, fault: Fault)
    requires ValidRecords(env, records, secret) && Mirrors(disk, records)
    ensures var p := Persist(records, disk, true, fault); var records' := if p.committed then Flushed(records)
            else records;
            && ValidRecords(env, records', secret) && Mirrors(p.disk, records') && SameFlags(records, records')
  {
    IdsMatch(env, records, secret);
    PersistMirrors(records, disk, true, fault);
    var p := Persist(records, disk, true, fault);
    if p.committed { FlushedValid(env, records, secret, p.disk.tokens); }
  }

  lemma TouchKeeps(env: Env, records: Records, disk: Disk, secret: string, id: string, now: int)
    requires ValidRecords(env, records, secret) && Mirrors(disk, records) && id in records
    ensures var records' := Touch(records, id, now);
            ValidRecords(env, records', secret) && Mirrors(disk, records') && SameFlags(records, records')
  {
    TouchValid(env, records, secret, id, now);
    TouchUnique(records, id, now);
    StillMirrors(disk, records, Touch(records, id, now));
  }

  /** The records an authentication leaves, and on which file. */
  lemma SeenShape(s: Store, disk: Disk, id: string, now: int, fault: Fault)
    requires id in s.records
    ensures var a := Seen(s, disk, id, now, fault); var r := Touch(s.records, id, now);
            var p := Persist(r, disk, true, fault);
            && a.store == s.(records := a.store.records, seenPersistedAt := a.store.seenPersistedAt)
            && ((a.store.records == r && a.disk == disk) || (a.store.records == (if p.committed then Flushed(r) else r)
              && a.disk == p.disk))
  {}

  /** Valid, mirrored by the file, and no record gone or changed in its role. */
  ghost predicate Kept(env: Env, before: Records, records: Records, disk: Disk, secret: string) {
    ValidRecords(env, records, secret) && Mirrors(disk, records) && SameFlags(before, records)
  }

  lemma TouchThenFlush(env: Env, records: Records, disk: Disk, secret: string, id: string, now: int, fault: Fault)
    requires ValidRecords(env, records, secret) && Mirrors(disk, records) && id in records
    ensures var r := Touch(records, id, now); var p := Persist(r, disk, true, fault);
            Kept(env, records, r, disk, secret) && Kept(env, records, if p.committed then Flushed(r)
                else r, p.disk, secret)
  {
    var r := Touch(records, id, now);
    TouchKeeps(env, records, disk, secret, id, now);
    FlushKeeps(env, r, disk, secret, fault);
    var r' := if Persist(r, disk, true, fault).committed then Flushed(r) else r;
    SameFlagsThen(records, r, r');
  }

  lemma SeenKeeps(env: Env, s: Store, disk: Disk, secret: string, id: string, now: int, fault: Fault)
    requires ValidRecords(env, s.records, secret) && Mirrors(disk, s.records) && id in s.records
    ensures var a := Seen(s, disk, id, now, fault);
            && Kept(env, s.records, a.store.records, a.disk, secret)
            && a.store == s.(records := a.store.records, seenPersistedAt := a.store.seenPersistedAt)
  {
    SeenShape(s, disk, id, now, fault);
    TouchThenFlush(env, s.records, disk, secret, id, now, fault);
  }

  lemma SameFlagsThen(a: Records, b: Records, c: Records)
    requires SameFlags(a, b) && SameFlags(b, c)
    ensures SameFlags(a, c)
  {}

  lemma AuthenticateKeeps(env: Env, s: Store, disk: Disk, secret: string, guess: string, now: int, fault: Fault)
    requires Consistent(env, s, disk, secret)
    ensures var a := DoAuthenticate(env, s, disk, guess, now, fault); Consistent(env, a.store, a.disk, secret)
  {
    match Match(env, s.records, guess)
    case None =>
    case Some(id) => SeenKeeps(env, s, disk, secret, id, now, fault);
  }

  lemma IssueKeeps(env: Env, s: Store, disk: Disk, secret: string, name: string, payload: Option<string>, now: int,
      fault: Fault)
    requires GoodEnv(env) && Consistent(env, s, disk, secret) && LegalOp(Issue(name, payload), now)
    ensures var a := DoIssue(env, s, disk, name, payload, now, fault);
            && ValidRecords(env, a.store.records, secret) && Mirrors(a.disk, a.store.records)
            && a.store == s.(records := a.store.records)
            && SameFlags(s.records, a.store.records)
  {
    var a := DoIssue(env, s, disk, name, payload, now, fault);
    if a.reply.Secret? {
      var id := payload.value[..16];
      var records' := a.store.records;
      assert id != BOOTSTRAP_ID by { assert |id| == 16; }
      forall i | i in records' ensures ValidRec(env, i, records'[i]) {
        if i != id { assert ValidRec(env, i, s.records[i]); }
      }
      IdsMatch(env, records', secret);
      PersistMirrors(records', disk, false, fault);
    }
  }

  lemma RevokeKeeps(env: Env, s: Store, disk: Disk, secret: string, id: string, fault: Fault)
    requires Consistent(env, s, disk, secret)
    ensures var a := DoRevoke(s, disk, id, fault);
            ValidRecords(env, a.store.records, secret) && Mirrors(a.disk, a.store.records)
  {
    var a := DoRevoke(s, disk, id, fault);
    if a.reply.Revoked? {
      var records' := s.records - {id};
      StillUnique(s.records, records');
      forall i | i in records' ensures ValidRec(env, i, records'[i]) { assert ValidRec(env, i, s.records[i]); }
      IdsMatch(env, records', secret);
      PersistMirrors(records', disk, false, fault);
    }
  }

  lemma RevokeSubs(s: Store, disk: Disk, id: string, fault: Fault)
    requires ValidSubs(s)
    ensures ValidSubs(DoRevoke(s, disk, id, fault).store)
  {
    var s' := DoRevoke(s, disk, id, fault).store;
    if s' != s {
      forall i, c: nat | Waiting(s'.subs, i, c) ensures Waiting(s.subs, i, c) && i != id {}
      forall c: nat ensures s'.closed[c] == s.closed[c] + (if Waiting(s.subs, id, c) then 1 else 0) {}
      forall c: nat | c < s'.next ensures c in s'.closed || c in s'.cancelled || exists i :: Waiting(s'.subs, i, c) {
        if c !in s.closed && c !in s.cancelled {
          var i :| Waiting(s.subs, i, c);
          assert i == id || Waiting(s'.subs, i, c);
        }
      }
    }
  }

  lemma SubscribeSubs(s: Store, id: string)
    requires ValidSubs(s)
    ensures ValidSubs(DoSubscribe(s, id).0)
  {
    var s' := DoSubscribe(s, id).0;
    if s' != s {
      forall i, c | Waiting(s'.subs, i, c) ensures Waiting(s.subs, i, c) || (i == id && c == s.next) {}
      forall c: nat | c < s'.next ensures c in s'.closed || c in s'.cancelled || exists i :: Waiting(s'.subs, i, c) {
        if c == s.next {
          assert Waiting(s'.subs, id, c);
        } else if c !in s.closed && c !in s.cancelled {
          var i :| Waiting(s.subs, i, c);
          assert Waiting(s'.subs, i, c);
        }
      }
    }
  }

  lemma CancelSubs(s: Store, id: string, ch: nat)
    requires ValidSubs(s)
    ensures ValidSubs(DoCancel(s, id, ch))
  {
    var s' := DoCancel(s, id, ch);
    if s' != s {
      assert Waiting(s.subs, id, ch);
      forall i, c: nat | Waiting(s'.subs, i, c) ensures Waiting(s.subs, i, c) && c != ch {
        assert Waiting(s.subs, i, c);
        assert c == ch ==> i == id;
      }
      forall c: nat | c < s'.next ensures c in s'.closed || c in s'.cancelled || exists i :: Waiting(s'.subs, i, c) {
        if c !in s.closed && c !in s.cancelled && c != ch {
          var i :| Waiting(s.subs, i, c);
          assert Waiting(s'.subs, i, c);
        }
      }
    }
  }

  lemma InvalidateSubs(s: Store)
    requires ValidSubs(s)
    ensures ValidSubs(DoInvalidate(s))
  {
    var s' := DoInvalidate(s);
    forall c: nat | c in Channels(s.subs) ensures exists i :: Waiting(s.subs, i, c) {
      var i :| i in s.subs && c in s.subs[i];
      assert Waiting(s.subs, i, c);
    }
    forall c: nat | c < s'.next ensures c in s'.closed || c in s'.cancelled {
      if c !in s.closed && c !in s.cancelled {
        var i :| Waiting(s.subs, i, c);
        assert c in Channels(s.subs);
      }
    }
  }

  /** Every operation, under every persistence failure, keeps memory, file and
      subscriptions consistent. */
  lemma StepKeeps(env: Env, s: Store, disk: Disk, secret: string, op: Op, now: int, fault: Fault)
    requires GoodEnv(env) && Consistent(env, s, disk, secret) && LegalOp(op, now)
    ensures var a := Do(env, s, disk, op, now, fault); Consistent(env, a.store, a.disk, secret)
  {
    match op
    case Authenticate(guess) =>
      AuthenticateKeeps(env, s, disk, secret, guess, now, fault);
    case Issue(name, payload) =>
      IssueKeeps(env, s, disk, secret, name, payload, now, fault);
    case Revoke(id) =>
      RevokeKeeps(env, s, disk, secret, id, fault);
      RevokeSubs(s, disk, id, fault);
    case Subscribe(id) => SubscribeSubs(s, id);
    case Cancel(id, ch) => CancelSubs(s, id, ch);
    case Invalidate => InvalidateSubs(s);
  }

  datatype Call = Call(op: Op, now: int, fault: Fault)

  ghost function Run(env: Env, s: Store, disk: Disk, calls: seq<Call>): After
    decreases |calls|
  {
    if calls == [] then After(s, disk, Nothing)
    else var a := Do(env, s, disk, calls[0].op, calls[0].now, calls[0].fault); Run(env, a.store, a.disk, calls[1..])
  }

  /** From opening on, through any sequence of calls and failures, the file is the
      projection of memory and can be reopened to the same records. */
  lemma {:induction false} RunKeeps(env: Env, s: Store, disk: Disk, secret: string, calls: seq<Call>, now: int,
      fault: Fault)
    requires GoodEnv(env) && secret != "" && Consistent(env, s, disk, secret)
    requires forall c :: c in calls ==> LegalOp(c.op, c.now)
    ensures var a := Run(env, s, disk, calls); var o := Open(env, a.disk, secret, now, fault);
            && Consistent(env, a.store, a.disk, secret)
            && o.disk == a.disk && o.store.Some? && o.store.value.records == Reloaded(a.store.records)
    decreases |calls|
  {
    if calls == [] {
      Reopen(env, s, disk, secret, now, fault);
    } else {
      var c := calls[0];
      assert c in calls;
      StepKeeps(env, s, disk, secret, c.op, c.now, c.fault);
      var a := Do(env, s, disk, c.op, c.now, c.fault);
      RunKeeps(env, a.store, a.disk, secret, calls[1..], now, fault);
    }
  }

  // ----------------------------------------------- how often it is written

  /** An authentication writes the file only when it also advances the time of the
      last flush, and that by at least the interval; nothing else touches it. */
  lemma FlushStep(env: Env, s: Store, disk: Disk, op: Op, now: int, fault: Fault)
    ensures var a := Do(env, s, disk, op, now, fault); var from, to := s.seenPersistedAt, a.store.seenPersistedAt;
            && (from != ZERO_TIME && to != from ==> op.Authenticate? && to - from >= PERSIST_INTERVAL)
            && (from != ZERO_TIME && op.Authenticate? && a.disk != disk ==> to - from >= PERSIST_INTERVAL)
            && (from == ZERO_TIME && to != from ==> op.Authenticate?)
  {}

  /** The times of the flushes of a run. */
  ghost function Flushes(env: Env, s: Store, disk: Disk, calls: seq<Call>): seq<int>
    decreases |calls|
  {
    if calls == [] then []
    else
      var a := Do(env, s, disk, calls[0].op, calls[0].now, calls[0].fault);
      (if a.store.seenPersistedAt != s.seenPersistedAt then [a.store.seenPersistedAt] else [])
      + Flushes(env, a.store, a.disk, calls[1..])
  }

  /** An interval apart, a zero time (the time of no flush) aside. */
  predicate Apart(f: seq<int>) { forall k :: 0 < k < |f| ==>
      f[k - 1] == ZERO_TIME || f[k] - f[k - 1] >= PERSIST_INTERVAL }

  lemma ApartCons(first: int, f: seq<int>)
    requires Apart(f) && f != [] && (first == ZERO_TIME || f[0] - first >= PERSIST_INTERVAL)
    ensures Apart([first] + f)
  {
    var g := [first] + f;
    forall k | 0 < k < |g| ensures g[k - 1] == ZERO_TIME || g[k] - g[k - 1] >= PERSIST_INTERVAL {
      if k > 1 { assert g[k - 1] == f[k - 2] && g[k] == f[k - 1]; }
    }
  }

  /** Authentication flushes at most once per interval: the times of successive
      flushes, from the one before the run on, are at least an interval apart. */
  lemma {:induction false} FlushesSpaced(env: Env, s: Store, disk: Disk, calls: seq<Call>)
    ensures Apart([s.seenPersistedAt] + Flushes(env, s, disk, calls))
    decreases |calls|
  {
    if calls != [] {
      var c, from := calls[0], s.seenPersistedAt;
      var a := Do(env, s, disk, c.op, c.now, c.fault);
      var to, rest := a.store.seenPersistedAt, Flushes(env, a.store, a.disk, calls[1..]);
      FlushStep(env, s, disk, c.op, c.now, c.fault);
      FlushesSpaced(env, a.store, a.disk, calls[1..]);
      if to == from {
        assert Flushes(env, s, disk, calls) == [] + rest == rest;
      } else {
        assert Flushes(env, s, disk, calls) == [to] + rest;
        ApartCons(from, [to] + rest);
      }
    }
  }

  // ------------------------------------------------------- what a caller sees

  lemma MatchUnique(env: Env, records: Records, id: string, secret: string)
    requires UniqueHashes(records) && id in records && records[id].hash == env.hash(secret)
    ensures Match(env, records, secret) == Some(id)
  {
    var m := Match(env, records, secret);
    assert SameHash(records, m.value, id);
  }

  /** A secret that was handed out authenticates as that client, now and after a
      restart; a refusal changed neither memory nor file. */
  lemma IssueThenAuthenticate(env: Env, s: Store, disk: Disk, boot: string, name: string, payload: Option<string>,
      now: int, fault: Fault)
    requires GoodEnv(env) && Consistent(env, s, disk, boot) && LegalOp(Issue(name, payload), now)
    ensures var a := DoIssue(env, s, disk, name, payload, now, fault);
            && (a.reply.Refused? ==> a.store == s && a.disk == disk)
            && (a.reply.Secret? ==>
                  && a.reply.id !in s.records
                  && Match(env, a.store.records, a.reply.secret) == Some(a.reply.id)
                  && Match(env, Reloaded(a.store.records), a.reply.secret) == Some(a.reply.id)
                  && !a.store.records[a.reply.id].bootstrap)
  {
    var a := DoIssue(env, s, disk, name, payload, now, fault);
    if a.reply.Secret? {
      IssueKeeps(env, s, disk, boot, name, payload, now, fault);
      MatchUnique(env, a.store.records, a.reply.id, a.reply.secret);
      StillUnique(a.store.records, Reloaded(a.store.records));
      MatchUnique(env, Reloaded(a.store.records), a.reply.id, a.reply.secret);
    }
  }

  lemma MatchGone(env: Env, records: Records, id: string, rest: Records, guess: string)
    requires UniqueHashes(records) && id in records && env.hash(guess) == records[id].hash
    requires forall i :: i in rest ==> i in records && i != id && rest[i].hash == records[i].hash
    ensures Match(env, rest, guess).None?
  {
    forall i | i in rest ensures rest[i].hash != env.hash(guess) {
      assert SameHash(records, i, id) ==> i == id;
    }
  }

  /** After a revocation that succeeded, no secret with that hash authenticates,
      now or after a restart, and every channel waiting on the token is closed;
      one that failed changed nothing. */
  lemma RevokeIsFinal(env: Env, s: Store, disk: Disk, boot: string, id: string, fault: Fault, guess: string)
    requires Consistent(env, s, disk, boot)
    ensures var a := DoRevoke(s, disk, id, fault);
            && (a.reply.Refused? ==> a.store == s && a.disk == disk)
            && (a.reply.Revoked? ==>
                  && id in s.records
                  && (env.hash(guess) == s.records[id].hash ==>
                        Match(env, a.store.records, guess).None? && Match(env, Reloaded(a.store.records), guess).None?)
                  && forall c: nat :: Waiting(s.subs, id, c) ==> c in a.store.closed)
  {
    var a := DoRevoke(s, disk, id, fault);
    if a.reply.Revoked? && env.hash(guess) == s.records[id].hash {
      MatchGone(env, s.records, id, a.store.records, guess);
      MatchGone(env, s.records, id, Reloaded(a.store.records), guess);
    }
  }
}
