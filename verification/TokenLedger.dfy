/** What the token store answers, over whole runs with restarts.

    The reference is a ledger: the hash of every token that was handed out and
    not revoked since, kept from the replies alone.  Records, file, flushes and
    failed writes do not occur in it. */
module TokenLedger {
  import opened Base
  import opened TokenStore

  /** `retired` is whether the running store was told to drop its subscribers. */
  datatype Ledger = Ledger(tokens: map<string, string>, retired: bool)

  /** A call, or a restart that reopens the file the process left behind. */
  datatype Event = Called(call: Call) | Restarted(now: int, fault: Fault)

  predicate LegalEvent(e: Event) {
    e.Called? ==> LegalOp(e.call.op, e.call.now)
  }

  ghost function Happen(env: Env, s: Store, disk: Disk, boot: string, e: Event): After {
    match e
    case Called(c) => Do(env, s, disk, c.op, c.now, c.fault)
    case Restarted(now, fault) =>
      var o := Open(env, disk, boot, now, fault);
      After(if o.store.Some? then o.store.value else s, o.disk, Nothing)
  }

  /** The ledger after a reply: tokens come with a secret and go with a revocation. */
  function Booked(env: Env, l: Ledger, e: Event, reply: Reply): Ledger {
    if e.Restarted? then l.(retired := false)
    else if reply.Secret? then l.(tokens := l.tokens[reply.id := env.hash(reply.secret)])
    else if e.call.op.Revoke? && reply.Revoked? then l.(tokens := l.tokens - {e.call.op.id})
    else if e.call.op.Invalidate? then l.(retired := true)
    else l
  }

  /** What the ledger says a secret is worth. */
  ghost function Worth(env: Env, l: Ledger, boot: string, guess: string): Reply {
    if env.hash(guess) == env.hash(boot) then Principal(BOOTSTRAP_ID, true)
    else if exists id :: id in l.tokens && l.tokens[id] == env.hash(guess) then
      var id :| id in l.tokens && l.tokens[id] == env.hash(guess);
      Principal(id, false)
    else Denied
  }

  /** The reply the ledger allows. */
  ghost predicate Answers(env: Env, l: Ledger, boot: string, e: Event, reply: Reply) {
    match e
    case Restarted(_, _) => reply.Nothing?
    case Called(c) =>
      match c.op
      case Authenticate(guess) => reply == Worth(env, l, boot, guess)
      case Issue(name, payload) =>
        if Issuable(env, l, boot, name, payload) && !c.fault.BeforeRename?
        then reply == Secret(payload.value[..16], "wlt_" + payload.value)
        else reply.Refused?
      case Revoke(id) => reply == if id in l.tokens && !c.fault.BeforeRename? then Revoked else Refused
      case Subscribe(id) =>
        if id == BOOTSTRAP_ID then reply.Active?
        else if id in l.tokens && !l.retired then reply.Channel? else reply.Refused?
      case _ => reply.Nothing?
  }

  /** The label is acceptable, randomness was available, and neither the identifier
      nor the secret's hash is taken. */
  ghost predicate Issuable(env: Env, l: Ledger, boot: string, name: string, payload: Option<string>) {
    && env.labelOk(name) && payload.Some? && |payload.value| >= 16
    && payload.value[..16] !in l.tokens && payload.value[..16] != BOOTSTRAP_ID
    && env.hash("wlt_" + payload.value) != env.hash(boot)
    && Unused(l, env.hash("wlt_" + payload.value))
  }

  ghost predicate Unused(l: Ledger, hash: string) { forall id :: id in l.tokens ==> l.tokens[id] != hash }

  ghost function LedgerOf(s: Store): Ledger {
    Ledger(map id | id in s.records && id != BOOTSTRAP_ID :: s.records[id].hash, s.invalidated)
  }

  // ------------------------------------------------------- one reply at a time

  /** The administrator is the bootstrap record and no other. */
  lemma AdminIsBootstrap(env: Env, records: Records, boot: string, id: string)
    requires ValidRecords(env, records, boot) && id in records
    ensures records[id].id == id && (records[id].bootstrap <==> id == BOOTSTRAP_ID)
  {
    assert ValidRec(env, id, records[id]);
  }

  /** A secret gets the principal of the record that has its hash, as administrator
      only if that is the bootstrap record, and is denied if no record has it. */
  lemma AuthenticateExactly(env: Env, s: Store, disk: Disk, boot: string, guess: string, now: int, fault: Fault)
    requires Consistent(env, s, disk, boot)
    ensures var reply := DoAuthenticate(env, s, disk, guess, now, fault).reply;
            && (forall id, admin :: reply == Principal(id, admin) <==>
                  id in s.records && s.records[id].hash == env.hash(guess) && admin == (id == BOOTSTRAP_ID))
            && (reply.Denied? <==> forall id :: id in s.records ==> s.records[id].hash != env.hash(guess))
            && (reply.Denied? || reply.Principal?)
  {
    forall id | id in s.records && s.records[id].hash == env.hash(guess)
      ensures DoAuthenticate(env, s, disk, guess, now, fault).reply == Principal(id, id == BOOTSTRAP_ID)
    {
      MatchUnique(env, s.records, id, guess);
      AdminIsBootstrap(env, s.records, boot, id);
    }
  }

  /** The time noted for a successful authentication is the latest of the clock, the
      token's creation and its previous use; nothing else about any record changes. */
  lemma LastSeenExactly(env: Env, s: Store, disk: Disk, guess: string, now: int, fault: Fault, id: string)
    requires UniqueHashes(s.records) && id in s.records
    ensures var a := DoAuthenticate(env, s, disk, guess, now, fault);
            && a.store.records.Keys == s.records.Keys && a.store.invalidated == s.invalidated
            && Noted(s.records[id], a.store.records[id], now, s.records[id].hash == env.hash(guess))
  {
    var m := Match(env, s.records, guess);
    if s.records[id].hash == env.hash(guess) { MatchUnique(env, s.records, id, guess); }
    if m.Some? {
      SeenShape(s, disk, m.value, now, fault);
      TouchNotes(s.records, m.value, now, id);
    }
  }

  lemma TouchNotes(records: Records, touched: string, now: int, id: string)
    requires touched in records && id in records
    ensures var t, f := Touch(records, touched, now), Flushed(Touch(records, touched, now));
            && t.Keys == records.Keys && f.Keys == records.Keys
            && Noted(records[id], t[id], now, id == touched) && Noted(records[id], f[id], now, id == touched)
  {}

  /** What an authentication does to one record. */
  ghost predicate Noted(r: Rec, r': Rec, now: int, matched: bool) {
    && r' == r.(lastSeen := r'.lastSeen, persistedSeen := r'.persistedSeen)
    && r'.persistedSeen in {r.persistedSeen, r'.lastSeen}
    && (!matched ==> r'.lastSeen == r.lastSeen)
    && (matched ==> r'.lastSeen.Some? && Latest(r'.lastSeen.value, {now, r.createdAt} + Times(r.lastSeen)))
  }

  ghost predicate Latest(t: int, times: set<int>) { t in times && forall u :: u in times ==> u <= t }

  function Times(t: Option<int>): set<int> { if t.Some? then {t.value} else {} }

  /** The file is brought up to date with every last-seen time exactly when nothing
      was ever flushed or an interval has passed since, unless the write fails. */
  lemma FlushesExactly(env: Env, s: Store, disk: Disk, guess: string, now: int, fault: Fault, id: string)
    requires UniqueHashes(s.records) && id in s.records && s.records[id].hash == env.hash(guess)
    ensures var a := DoAuthenticate(env, s, disk, guess, now, fault);
            var t := Clamp(s.records[id], now);
            && a.store.records.Keys == s.records.Keys && a.store.records[id].lastSeen == Some(t)
            && if (s.seenPersistedAt == ZERO_TIME || t - s.seenPersistedAt >= PERSIST_INTERVAL) && !fault.BeforeRename?
               then
                 && a.store.seenPersistedAt == t
                 && forall i :: i in a.store.records ==> a.store.records[i].persistedSeen == a.store.records[i].lastSeen
               else
                 && a.store.seenPersistedAt == s.seenPersistedAt && a.disk == disk
                 && forall i :: i in a.store.records ==> a.store.records[i].persistedSeen == s.records[i].persistedSeen
  {
    MatchUnique(env, s.records, id, guess);
  }

  lemma UniqueWith(records: Records, id: string, r: Rec)
    requires UniqueHashes(records) && id !in records
    ensures UniqueHashes(records[id := r]) <==> forall i :: i in records ==> records[i].hash != r.hash
  {
    var records' := records[id := r];
    if UniqueHashes(records') {
      forall i | i in records ensures records[i].hash != r.hash { assert !SameHash(records', i, id); }
    }
    if forall i :: i in records ==> records[i].hash != r.hash {
      forall a, b | SameHash(records', a, b) ensures a == b {
        if a != id && b != id { assert SameHash(records, a, b); }
      }
    }
  }

  lemma IssueExactly(env: Env, s: Store, disk: Disk, boot: string, name: string, payload: Option<string>, now: int,
      fault: Fault)
    requires Consistent(env, s, disk, boot)
    ensures var a := DoIssue(env, s, disk, name, payload, now, fault);
            if Issuable(env, LedgerOf(s), boot, name, payload) && !fault.BeforeRename?
            then
              var id, secret := payload.value[..16], "wlt_" + payload.value;
              && a.reply == Secret(id, secret)
              && a.store == s.(records := s.records[id := Rec(id, name, now, None, false, env.hash(secret), None)])
            else a.reply.Refused? && a.store == s && a.disk == disk
  {
    if payload.Some? && |payload.value| >= 16 && payload.value[..16] !in s.records {
      var id, secret := payload.value[..16], "wlt_" + payload.value;
      UniqueWith(s.records, id, Rec(id, name, now, None, false, env.hash(secret), None));
      UnusedExactly(env, s, boot, env.hash(secret));
    }
  }

  lemma UnusedExactly(env: Env, s: Store, boot: string, hash: string)
    requires ValidRecords(env, s.records, boot)
    ensures (forall i :: i in s.records ==> s.records[i].hash != hash) <==>
            env.hash(boot) != hash && Unused(LedgerOf(s), hash)
  {
    var l := LedgerOf(s);
    if env.hash(boot) != hash && Unused(l, hash) {
      forall i | i in s.records ensures s.records[i].hash != hash {
        if i != BOOTSTRAP_ID { assert l.tokens[i] != hash; }
      }
    }
    if forall i :: i in s.records ==> s.records[i].hash != hash {
      forall i | i in l.tokens ensures l.tokens[i] != hash { assert s.records[i].hash != hash; }
    }
  }

  lemma RevokeExactly(env: Env, s: Store, disk: Disk, boot: string, id: string, fault: Fault)
    requires Consistent(env, s, disk, boot)
    ensures var a := DoRevoke(s, disk, id, fault);
            if id in LedgerOf(s).tokens && !fault.BeforeRename?
            then a.reply.Revoked? && a.store.records == s.records - {id}
            else a.reply.Refused? && a.store == s && a.disk == disk
  {
    if id in s.records { AdminIsBootstrap(env, s.records, boot, id); }
  }

  /** Which channels wait, and which have been closed, after a call: subscribing adds
      one, and only its cancellation, the token's revocation or the retirement of the
      store takes one away; the last two close it. */
  lemma ChannelsExactly(env: Env, s: Store, disk: Disk, boot: string, c: Call, id: string, ch: nat)
    requires Consistent(env, s, disk, boot)
    ensures var a := Do(env, s, disk, c.op, c.now, c.fault);
            && Traced(s, a, c.op, id, ch)
            && (c.op == Subscribe(id) ==>
                  a.reply == if id == BOOTSTRAP_ID then Active
                             else if id in s.records && !s.invalidated then Channel(s.next) else Refused)
  {
    match c.op
    case Authenticate(guess) => SameSubs(env, s, disk, c);
    case Issue(name, payload) => SameSubs(env, s, disk, c);
    case Revoke(victim) => RevokeTraced(env, s, disk, c, id, ch);
    case Subscribe(other) => if id in s.records { AdminIsBootstrap(env, s.records, boot, id); }
    case Cancel(_, _) =>
    case Invalidate => if Waiting(s.subs, id, ch) { assert ch in Channels(s.subs); }
  }

  /** The fate of channel `ch` under token `id`. */
  ghost predicate Traced(s: Store, a: After, op: Op, id: string, ch: nat) {
    var ended := op.Invalidate? || (op == Revoke(id) && a.reply.Revoked?);
    && (Waiting(a.store.subs, id, ch) <==>
          || (op == Subscribe(id) && a.reply == Channel(ch))
          || (Waiting(s.subs, id, ch) && !ended && op != Cancel(id, ch)))
    && (Waiting(s.subs, id, ch) ==> (ch in a.store.closed <==> ended))
  }

  lemma SameSubs(env: Env, s: Store, disk: Disk, c: Call)
    requires c.op.Authenticate? || c.op.Issue?
    ensures var a := Do(env, s, disk, c.op, c.now, c.fault); a.store.subs == s.subs && a.store.closed == s.closed
  {}

  lemma RevokeTraced(env: Env, s: Store, disk: Disk, c: Call, id: string, ch: nat)
    requires ValidSubs(s) && c.op.Revoke?
    ensures Traced(s, Do(env, s, disk, c.op, c.now, c.fault), c.op, id, ch)
  {
    if Waiting(s.subs, id, ch) && Waiting(s.subs, c.op.id, ch) { assert id == c.op.id; }
  }

  // ------------------------------------------------------------------ opening

  /** No managed token in the file has the bootstrap secret's hash. */
  ghost predicate NoClash(tokens: seq<Token>, hash: string) {
    forall i :: 0 <= i < |tokens| && tokens[i].id != BOOTSTRAP_ID ==> tokens[i].hash != hash
  }

  predicate IsBootstrap(t: Token, hash: string) {
    t.id == BOOTSTRAP_ID && t.hash == hash && t.name == BOOTSTRAP_LABEL
  }

  /** The file already says what opening would write. */
  ghost predicate UpToDate(disk: Disk, hash: string) {
    && disk.File? && disk.owned
    && exists i :: 0 <= i < |disk.tokens| && IsBootstrap(disk.tokens[i], hash)
  }

  lemma FromTokensUnique(tokens: seq<Token>)
    requires forall i, j :: 0 <= i < j < |tokens| ==> tokens[i].id != tokens[j].id && tokens[i].hash != tokens[j].hash
    ensures UniqueHashes(FromTokens(tokens))
  {
    var m := FromTokens(tokens);
    forall a, b | SameHash(m, a, b) ensures a == b {
      var i := FromTokensOnly(tokens, a);
      var j := FromTokensOnly(tokens, b);
      FromTokensAt(tokens, i);
      FromTokensAt(tokens, j);
    }
  }

  lemma ClashExactly(tokens: seq<Token>, r: Rec)
    requires forall i, j :: 0 <= i < j < |tokens| ==> tokens[i].id != tokens[j].id && tokens[i].hash != tokens[j].hash
    ensures UniqueHashes(FromTokens(tokens)[BOOTSTRAP_ID := r]) <==> NoClash(tokens, r.hash)
  {
    var m := FromTokens(tokens);
    var m' := m[BOOTSTRAP_ID := r];
    FromTokensUnique(tokens);
    if UniqueHashes(m') {
      forall i | 0 <= i < |tokens| && tokens[i].id != BOOTSTRAP_ID ensures tokens[i].hash != r.hash {
        FromTokensAt(tokens, i);
        assert !SameHash(m', tokens[i].id, BOOTSTRAP_ID);
      }
    }
    if NoClash(tokens, r.hash) {
      forall a, b | SameHash(m', a, b) ensures a == b {
        if a != BOOTSTRAP_ID { var i := FromTokensOnly(tokens, a); FromTokensAt(tokens, i); }
        if b != BOOTSTRAP_ID { var i := FromTokensOnly(tokens, b); FromTokensAt(tokens, i); }
        if a != BOOTSTRAP_ID && b != BOOTSTRAP_ID { assert SameHash(m, a, b); }
      }
    }
  }

  /** The tokens of a file, none when there is no file. */
  function TokensIn(disk: Disk): seq<Token> { if disk.File? then disk.tokens else [] }

  ghost predicate Openable(env: Env, disk: Disk, boot: string, fault: Fault) {
    && boot != "" && !disk.Unreadable?
    && Loadable(env, TokensIn(disk)) && NoClash(TokensIn(disk), env.hash(boot))
    && (fault.NoFault? || UpToDate(disk, env.hash(boot)))
  }

  lemma UpToDateExactly(env: Env, disk: Disk, hash: string, boot: Rec)
    requires Loadable(env, TokensIn(disk))
    requires var m := FromTokens(TokensIn(disk));
             if BOOTSTRAP_ID in m then boot == m[BOOTSTRAP_ID].(hash := hash, name := BOOTSTRAP_LABEL) else true
    ensures var m := FromTokens(TokensIn(disk));
            UpToDate(disk, hash) <==> disk.File? && disk.owned && m[BOOTSTRAP_ID := boot] == m
  {
    var tokens, m := TokensIn(disk), FromTokens(TokensIn(disk));
    if UpToDate(disk, hash) {
      var i :| 0 <= i < |disk.tokens| && IsBootstrap(disk.tokens[i], hash);
      FromTokensAt(tokens, i);
      assert m[BOOTSTRAP_ID := boot] == m;
    }
    if disk.File? && disk.owned && m[BOOTSTRAP_ID := boot] == m {
      assert BOOTSTRAP_ID in m[BOOTSTRAP_ID := boot];
      var i := FromTokensOnly(tokens, BOOTSTRAP_ID);
      FromTokensAt(tokens, i);
      assert m[BOOTSTRAP_ID := boot][BOOTSTRAP_ID] == boot;
    }
  }

  /** `seen` is the latest last-seen time of the tokens, or what it started with. */
  ghost predicate LatestSeen(tokens: seq<Token>, from: int, seen: int) {
    && from <= seen && (seen == from || exists t :: t in tokens && t.lastSeen == Some(seen))
    && forall t :: t in tokens && t.lastSeen.Some? ==> t.lastSeen.value <= seen
  }

  lemma {:induction false} LoadSeen(env: Env, tokens: seq<Token>, records: Records, hashes: set<string>, from: int)
    ensures var l := Load(env, tokens, records, hashes, from); l.Loaded? ==> LatestSeen(tokens, from, l.seen)
    decreases |tokens|
  {
    if tokens != [] {
      var t, rest := tokens[0], tokens[1..];
      LoadSeen(env, rest, records[t.id := FromToken(t)], hashes + {t.hash}, Later(t, from));
      assert tokens == [t] + rest;
    }
  }

  /** The flush interval runs on from the latest time in the file. */
  lemma OpensAtLatest(env: Env, disk: Disk, boot: string, now: int, fault: Fault)
    ensures var o := Open(env, disk, boot, now, fault);
            o.store.Some? ==> LatestSeen(TokensIn(disk), ZERO_TIME, o.store.value.seenPersistedAt)
  {
    LoadSeen(env, TokensIn(disk), map[], {}, ZERO_TIME);
  }

  /** A store opens exactly when its file (if there is one) is valid, no managed token
      has the bootstrap secret, and what must be written was; it then holds the file's
      managed tokens unchanged and the bootstrap record with the configured secret. */
  lemma OpenExactly(env: Env, disk: Disk, boot: string, now: int, fault: Fault)
    ensures var o := Open(env, disk, boot, now, fault);
            && (o.store.Some? <==> Openable(env, disk, boot, fault))
            && (o.store.Some? ==>
                  var m, r := FromTokens(TokensIn(disk)), o.store.value.records;
                  && BOOTSTRAP_ID in r && r == m[BOOTSTRAP_ID := r[BOOTSTRAP_ID]]
                  && r[BOOTSTRAP_ID].hash == env.hash(boot) && r[BOOTSTRAP_ID].name == BOOTSTRAP_LABEL
                  && r[BOOTSTRAP_ID].createdAt == if BOOTSTRAP_ID in m then m[BOOTSTRAP_ID].createdAt else now)
  {
    var tokens := TokensIn(disk);
    LoadExactly(env, tokens);
    assert disk.Absent? ==> Load(env, tokens, map[], {}, ZERO_TIME) == Loaded(map[], ZERO_TIME);
    if boot != "" && !disk.Unreadable? && Loadable(env, tokens) {
      var m := FromTokens(tokens);
      LoadedValid(env, tokens);
      if BOOTSTRAP_ID in m { assert ValidRec(env, BOOTSTRAP_ID, m[BOOTSTRAP_ID]); }
      var r := if BOOTSTRAP_ID in m then m[BOOTSTRAP_ID].(hash := env.hash(boot), name := BOOTSTRAP_LABEL)
               else Rec(BOOTSTRAP_ID, BOOTSTRAP_LABEL, now, None, true, env.hash(boot), None);
      ClashExactly(tokens, r);
      UpToDateExactly(env, disk, env.hash(boot), r);
    }
  }

  // --------------------------------------------------------------- whole runs

  lemma WorthExactly(env: Env, s: Store, disk: Disk, boot: string, guess: string, now: int, fault: Fault)
    requires Consistent(env, s, disk, boot)
    ensures DoAuthenticate(env, s, disk, guess, now, fault).reply == Worth(env, LedgerOf(s), boot, guess)
  {
    AuthenticateExactly(env, s, disk, boot, guess, now, fault);
    UnusedExactly(env, s, boot, env.hash(guess));
  }

  lemma EventKeeps(env: Env, s: Store, disk: Disk, boot: string, e: Event)
    requires GoodEnv(env) && boot != "" && Consistent(env, s, disk, boot) && LegalEvent(e)
    ensures var a := Happen(env, s, disk, boot, e); Consistent(env, a.store, a.disk, boot)
  {
    match e
    case Restarted(now, fault) => Reopen(env, s, disk, boot, now, fault);
    case Called(c) => StepKeeps(env, s, disk, boot, c.op, c.now, c.fault);
  }

  /** The reply is the ledger's, and so are the records afterwards. */
  ghost predicate Entered(env: Env, s: Store, boot: string, e: Event, a: After) {
    && Answers(env, LedgerOf(s), boot, e, a.reply)
    && LedgerOf(a.store) == Booked(env, LedgerOf(s), e, a.reply)
  }

  lemma EventAnswers(env: Env, s: Store, disk: Disk, boot: string, e: Event)
    requires boot != "" && Consistent(env, s, disk, boot)
    ensures Entered(env, s, boot, e, Happen(env, s, disk, boot, e))
  {
    match e
    case Restarted(now, fault) => Reopen(env, s, disk, boot, now, fault);
    case Called(c) =>
      match c.op
      case Authenticate(guess) => AuthenticateBooked(env, s, disk, boot, c);
      case Issue(name, payload) => IssueBooked(env, s, disk, boot, c);
      case Revoke(id) => RevokeBooked(env, s, disk, boot, c);
      case Subscribe(id) => SubscribeBooked(env, s, disk, boot, c);
      case _ =>
  }

  lemma AuthenticateBooked(env: Env, s: Store, disk: Disk, boot: string, c: Call)
    requires Consistent(env, s, disk, boot) && c.op.Authenticate?
    ensures Entered(env, s, boot, Called(c), Do(env, s, disk, c.op, c.now, c.fault))
  {
    WorthExactly(env, s, disk, boot, c.op.secret, c.now, c.fault);
    AuthenticateKeepsLedger(env, s, disk, c.op.secret, c.now, c.fault);
  }

  lemma SubscribeBooked(env: Env, s: Store, disk: Disk, boot: string, c: Call)
    requires Consistent(env, s, disk, boot) && c.op.Subscribe?
    ensures Entered(env, s, boot, Called(c), Do(env, s, disk, c.op, c.now, c.fault))
  {
    if c.op.id in s.records { AdminIsBootstrap(env, s.records, boot, c.op.id); }
  }

  lemma LedgerAdds(s: Store, s': Store, id: string, r: Rec)
    requires s' == s.(records := s.records[id := r]) && id != BOOTSTRAP_ID
    ensures LedgerOf(s') == LedgerOf(s).(tokens := LedgerOf(s).tokens[id := r.hash])
  {}

  lemma IssueBooked(env: Env, s: Store, disk: Disk, boot: string, c: Call)
    requires Consistent(env, s, disk, boot) && c.op.Issue?
    ensures Entered(env, s, boot, Called(c), Do(env, s, disk, c.op, c.now, c.fault))
  {
    var name, payload := c.op.name, c.op.payload;
    var a := DoIssue(env, s, disk, name, payload, c.now, c.fault);
    IssueExactly(env, s, disk, boot, name, payload, c.now, c.fault);
    if Issuable(env, LedgerOf(s), boot, name, payload) && !c.fault.BeforeRename? {
      var id, secret := payload.value[..16], "wlt_" + payload.value;
      LedgerAdds(s, a.store, id, Rec(id, name, c.now, None, false, env.hash(secret), None));
    }
  }

  lemma RevokeBooked(env: Env, s: Store, disk: Disk, boot: string, c: Call)
    requires Consistent(env, s, disk, boot) && c.op.Revoke?
    ensures Entered(env, s, boot, Called(c), Do(env, s, disk, c.op, c.now, c.fault))
  {
    RevokeExactly(env, s, disk, boot, c.op.id, c.fault);
  }

  lemma AuthenticateKeepsLedger(env: Env, s: Store, disk: Disk, guess: string, now: int, fault: Fault)
    requires UniqueHashes(s.records)
    ensures LedgerOf(DoAuthenticate(env, s, disk, guess, now, fault).store) == LedgerOf(s)
  {
    forall id | id in s.records
      ensures var a := DoAuthenticate(env, s, disk, guess, now, fault);
              a.store.records.Keys == s.records.Keys && a.store.records[id].hash == s.records[id].hash
    {
      LastSeenExactly(env, s, disk, guess, now, fault, id);
    }
    SameStatus(env, s, disk, guess, now, fault);
  }

  lemma SameStatus(env: Env, s: Store, disk: Disk, guess: string, now: int, fault: Fault)
    ensures var a := DoAuthenticate(env, s, disk, guess, now, fault);
            a.store.invalidated == s.invalidated && a.store.records.Keys == s.records.Keys
  {}

  /** The replies to a run of events. */
  ghost function Replies(env: Env, s: Store, disk: Disk, boot: string, es: seq<Event>): (r: seq<Reply>)
    ensures |r| == |es|
    decreases |es|
  {
    if es == [] then []
    else var a := Happen(env, s, disk, boot, es[0]); [a.reply] + Replies(env, a.store, a.disk, boot, es[1..])
  }

  /** The ledger kept from the replies alone, and that every reply is the one it allows. */
  ghost predicate Accounted(env: Env, l: Ledger, boot: string, es: seq<Event>, replies: seq<Reply>)
    requires |replies| == |es|
    decreases |es|
  {
    es == [] || (Answers(env, l, boot, es[0], replies[0])
                 && Accounted(env, Booked(env, l, es[0], replies[0]), boot, es[1..], replies[1..]))
  }

  /** Through any calls, failed writes and restarts every reply is the one a ledger of
      handed-out and not revoked tokens gives. */
  lemma {:induction false} LedgerDecides(env: Env, s: Store, disk: Disk, boot: string, es: seq<Event>)
    requires GoodEnv(env) && boot != "" && Consistent(env, s, disk, boot) && forall e :: e in es ==> LegalEvent(e)
    ensures Accounted(env, LedgerOf(s), boot, es, Replies(env, s, disk, boot, es))
    decreases |es|
  {
    if es != [] {
      assert es[0] in es;
      EventKeeps(env, s, disk, boot, es[0]);
      EventAnswers(env, s, disk, boot, es[0]);
      var a := Happen(env, s, disk, boot, es[0]);
      LedgerDecides(env, a.store, a.disk, boot, es[1..]);
      var r := Replies(env, s, disk, boot, es);
      assert r[0] == a.reply && r[1..] == Replies(env, a.store, a.disk, boot, es[1..]);
    }
  }

  /** A handed-out secret is answered with its client principal, now and after a
      restart; the bootstrap secret with the administrator's. */
  lemma IssuedSecretWorks(env: Env, s: Store, disk: Disk, boot: string, c: Call, now: int, fault: Fault)
    requires GoodEnv(env) && boot != "" && Consistent(env, s, disk, boot) && c.op.Issue? && LegalOp(c.op, c.now)
    ensures var a := Do(env, s, disk, c.op, c.now, c.fault);
            var o := Open(env, a.disk, boot, now, fault);
            && o.store.Some? && o.disk == a.disk
            && (a.reply.Secret? ==>
                  var who := Principal(a.reply.id, false);
                  && DoAuthenticate(env, a.store, a.disk, a.reply.secret, now, fault).reply == who
                  && DoAuthenticate(env, o.store.value, o.disk, a.reply.secret, now, fault).reply == who)
            && DoAuthenticate(env, a.store, a.disk, boot, now, fault).reply == Principal(BOOTSTRAP_ID, true)
            && DoAuthenticate(env, o.store.value, o.disk, boot, now, fault).reply == Principal(BOOTSTRAP_ID, true)
  {
    var a := Do(env, s, disk, c.op, c.now, c.fault);
    StepKeeps(env, s, disk, boot, c.op, c.now, c.fault);
    Reopen(env, a.store, a.disk, boot, now, fault);
    var o := Open(env, a.disk, boot, now, fault);
    if a.reply.Secret? {
      IssueRecorded(env, s, disk, boot, c);
      AuthenticateExactly(env, a.store, a.disk, boot, a.reply.secret, now, fault);
      AuthenticateExactly(env, o.store.value, o.disk, boot, a.reply.secret, now, fault);
    }
    AuthenticateExactly(env, a.store, a.disk, boot, boot, now, fault);
    AuthenticateExactly(env, o.store.value, o.disk, boot, boot, now, fault);
  }

  lemma IssueRecorded(env: Env, s: Store, disk: Disk, boot: string, c: Call)
    requires Consistent(env, s, disk, boot) && c.op.Issue?
    ensures var a := Do(env, s, disk, c.op, c.now, c.fault);
            a.reply.Secret? ==>
              && a.reply.id in a.store.records && a.reply.id != BOOTSTRAP_ID
              && a.store.records[a.reply.id].hash == env.hash(a.reply.secret)
  {
    IssueExactly(env, s, disk, boot, c.op.name, c.op.payload, c.now, c.fault);
  }

  /** A revoked secret is denied, now and after a restart. */
  lemma RevokedSecretDenied(env: Env, s: Store, disk: Disk, boot: string, c: Call, guess: string, now: int,
      fault: Fault)
    requires GoodEnv(env) && boot != "" && Consistent(env, s, disk, boot) && c.op.Revoke? && LegalOp(c.op, c.now)
    ensures var a := Do(env, s, disk, c.op, c.now, c.fault);
            var o := Open(env, a.disk, boot, now, fault);
            && o.store.Some? && o.disk == a.disk
            && (a.reply.Revoked? && c.op.id in s.records && s.records[c.op.id].hash == env.hash(guess) ==>
                  && DoAuthenticate(env, a.store, a.disk, guess, now, fault).reply.Denied?
                  && DoAuthenticate(env, o.store.value, o.disk, guess, now, fault).reply.Denied?)
  {
    var a := Do(env, s, disk, c.op, c.now, c.fault);
    StepKeeps(env, s, disk, boot, c.op, c.now, c.fault);
    Reopen(env, a.store, a.disk, boot, now, fault);
    RevokeIsFinal(env, s, disk, boot, c.op.id, c.fault, guess);
  }
}
