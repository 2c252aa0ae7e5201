/** The token store's methods on its fields, proved against module TokenStore. */
module TokenStoreCode {
  import opened Base
  import opened TokenStore
  import UciCode

  /** validateUniqueHashes. */
  method HashesDistinct(records: Records) returns (ok: bool)
    ensures ok <==> UniqueHashes(records)
  {
    var left, seen: map<string, string> := records.Keys, map[];
    while left != {}
      invariant left <= records.Keys
      invariant forall h :: h in seen ==> seen[h] in records.Keys - left && records[seen[h]].hash == h
      invariant forall id :: id in records.Keys - left ==> records[id].hash in seen && seen[records[id].hash] == id
      decreases |left|
    {
      var id :| id in left;
      if records[id].hash in seen {
        assert SameHash(records, seen[records[id].hash], id);
        return false;
      }
      seen := seen[records[id].hash := id];
      left := left - {id};
    }
    return true;
  }

  class LiveStore {
    var records: Records
    var seenPersistedAt: int
    var invalidated: bool
    var subs: map<string, set<nat>>
    var next: nat
    var closed: multiset<nat>
    var cancelled: set<nat>
    var disk: Disk
    const env: Env

    ghost function View(): Store
      reads this
    {
      Store(records, seenPersistedAt, invalidated, subs, next, closed, cancelled)
    }

    constructor (env: Env, s: Store, disk: Disk)
      ensures View() == s && this.disk == disk && this.env == env
    {
      this.env := env;
      this.disk := disk;
      records, seenPersistedAt, invalidated := s.records, s.seenPersistedAt, s.invalidated;
      subs, next, closed, cancelled := s.subs, s.next, s.closed, s.cancelled;
    }

    method Convert(ids: seq<string>, flush: bool) returns (tokens: seq<Token>)
      requires forall id :: id in ids ==> id in records
      ensures tokens == TokensOf(ids, records, flush)
    {
      tokens := [];
      var i := 0;
      while i < |ids|
        invariant 0 <= i <= |ids| && |tokens| == i
        invariant forall k :: 0 <= k < i ==> ids[k] in ids && tokens[k] == ToToken(records[ids[k]], flush)
      {
        assert ids[i] in ids;
        tokens := tokens + [ToToken(records[ids[i]], flush)];
        i := i + 1;
      }
    }

    method Listing(flush: bool) returns (tokens: seq<Token>)
      ensures tokens == Encode(records, flush)
    {
      var boot := map id | id in records && records[id].bootstrap :: ();
      var rest := map id | id in records && !records[id].bootstrap :: ();
      assert boot.Keys == Flagged(records, true) && rest.Keys == Flagged(records, false);
      var first := UciCode.SortedKeys(boot);
      var second := UciCode.SortedKeys(rest);
      tokens := Convert(first + second, flush);
    }

    /** persistLocked: the listing, then the commit point. */
    method PersistLocked(flush: bool, fault: Fault) returns (committed: bool, failed: bool)
      modifies this`disk
      ensures Persisted(disk, committed, failed) == Persist(records, old(disk), flush, fault)
    {
      var tokens := Listing(flush);
      if fault.BeforeRename? { return false, true; }
      disk := File(true, tokens);
      return true, fault.AfterRename?;
    }

    method Find(secret: string) returns (id: Option<string>)
      requires UniqueHashes(records)
      ensures id == Match(env, records, secret)
    {
      var left := records.Keys;
      id := None;
      while left != {}
        invariant left <= records.Keys
        invariant id.Some? ==> id.value in records.Keys - left && records[id.value].hash == env.hash(secret)
        invariant id.None? ==> forall i :: i in records.Keys - left ==> records[i].hash != env.hash(secret)
        decreases |left|
      {
        var i :| i in left;
        if records[i].hash == env.hash(secret) { id := Some(i); }
        left := left - {i};
      }
      if id.Some? { MatchUnique(env, records, id.value, secret); }
    }

    method Authenticate(secret: string, now: int, fault: Fault) returns (reply: Reply)
      requires UniqueHashes(records)
      modifies this
      ensures After(View(), disk, reply) == DoAuthenticate(env, old(View()), old(disk), secret, now, fault)
    {
      var found := Find(secret);
      if found.None? { return Denied; }
      var id := found.value;
      var r := records[id];
      var t := now;
      if t < r.createdAt { t := r.createdAt; }
      if r.lastSeen.Some? && t < r.lastSeen.value { t := r.lastSeen.value; }
      records := records[id := r.(lastSeen := Some(t))];
      if seenPersistedAt == ZERO_TIME || t - seenPersistedAt >= PERSIST_INTERVAL {
        var committed, failed := PersistLocked(true, fault);
        if committed {
          seenPersistedAt := t;
          records := map i | i in records :: records[i].(persistedSeen := records[i].lastSeen);
        }
      }
      reply := Principal(r.id, r.bootstrap);
    }

    method Issue(name: string, payload: Option<string>, now: int, fault: Fault) returns (reply: Reply)
      modifies this`records, this`disk
      ensures After(View(), disk, reply) == DoIssue(env, old(View()), old(disk), name, payload, now, fault)
    {
      if !env.labelOk(name) || payload.None? || |payload.value| < 16 { return Refused; }
      var id, secret := payload.value[..16], "wlt_" + payload.value;
      if id in records { return Refused; }
      var before := records;
      records := records[id := Rec(id, name, now, None, false, env.hash(secret), None)];
      var unique := HashesDistinct(records);
      if !unique {
        records := records - {id};
        assert records == before;
        return Refused;
      }
      var committed, failed := PersistLocked(false, fault);
      if failed && !committed {
        records := records - {id};
        assert records == before;
        return Refused;
      }
      reply := Secret(id, secret);
    }

    method Revoke(id: string, fault: Fault) returns (reply: Reply)
      modifies this`records, this`disk, this`subs, this`closed
      ensures After(View(), disk, reply) == DoRevoke(old(View()), old(disk), id, fault)
    {
      if id == BOOTSTRAP_ID { return Refused; }
      if id !in records || records[id].bootstrap { return Refused; }
      var r := records[id];
      records := records - {id};
      var committed, failed := PersistLocked(false, fault);
      if failed && !committed {
        records := records[id := r];
        assert records == old(records);
        return Refused;
      }
      NotifyRevoked(id);
      reply := Revoked;
    }

    /** notifyRevokedLocked: closes the waiting channels one by one. */
    method NotifyRevoked(id: string)
      modifies this`subs, this`closed
      ensures View() == Notify(old(View()), id)
    {
      if id in subs {
        var left := subs[id];
        while left != {}
          invariant subs == old(subs) && left <= subs[id]
          invariant closed + multiset(left) == old(closed) + multiset(subs[id])
          decreases |left|
        {
          var c :| c in left;
          closed := closed + multiset{c};
          left := left - {c};
        }
        subs := subs - {id};
      }
    }

    method SubscribeRevocation(id: string) returns (reply: Reply)
      modifies this`subs, this`next
      ensures (View(), reply) == DoSubscribe(old(View()), id)
    {
      if id == BOOTSTRAP_ID { return Active; }
      if invalidated || id !in records || records[id].bootstrap { return Refused; }
      reply := Channel(next);
      subs := subs[id := (if id in subs then subs[id] else {}) + {next}];
      next := next + 1;
    }

    method Cancel(id: string, ch: nat)
      modifies this`subs, this`cancelled
      ensures View() == DoCancel(old(View()), id, ch)
    {
      if id in subs && ch in subs[id] {
        var left := subs[id] - {ch};
        subs := if left == {} then subs - {id} else subs[id := left];
        cancelled := cancelled + {ch};
      }
    }

    /** InvalidateManagedSubscribers; each channel waits on one token. */
    method Invalidate()
      requires forall a, b, c: nat :: Waiting(subs, a, c) && Waiting(subs, b, c) ==> a == b
      modifies this`invalidated, this`subs, this`closed
      ensures View() == DoInvalidate(old(View()))
    {
      invalidated := true;
      ghost var before := subs;
      var left := subs.Keys;
      while left != {}
        invariant invalidated && left <= before.Keys && subs == map id | id in left :: before[id]
        invariant forall c: nat :: closed[c] == old(closed)[c] + (if Gone(before, left, c) then 1 else 0)
        decreases |left|
      {
        var id :| id in left;
        ghost var was := closed;
        NotifyRevoked(id);
        GoneStep(before, left, id);
        left := left - {id};
      }
      GoneAll(before);
      assert closed == old(closed) + multiset(Channels(before));
      assert subs == map[];
    }
  }

  /** The reading loop of OpenStore. */
  method ReadTokens(env: Env, tokens: seq<Token>) returns (l: Loaded)
    ensures l == Load(env, tokens, map[], {}, ZERO_TIME)
  {
    var records: Records, hashes: set<string>, seen := map[], {}, ZERO_TIME;
    for i := 0 to |tokens|
      invariant Load(env, tokens, map[], {}, ZERO_TIME) == Load(env, tokens[i..], records, hashes, seen)
    {
      var t := tokens[i];
      assert tokens[i..][0] == t && tokens[i..][1..] == tokens[i + 1..];
      if !ValidToken(env, t) || t.id in records || t.hash in hashes { return Rejected; }
      hashes := hashes + {t.hash};
      if t.lastSeen.Some? && t.lastSeen.value > seen { seen := t.lastSeen.value; }
      records := records[t.id := FromToken(t)];
    }
    l := Loaded(records, seen);
  }

  /** OpenStore: read the file, install the configured bootstrap secret, and write
      the file back if anything changed. */
  method OpenStore(env: Env, disk: Disk, secret: string, now: int, fault: Fault)
      returns (store: Option<LiveStore>, after: Disk)
    ensures var o := Open(env, disk, secret, now, fault);
            && after == o.disk && (store.Some? <==> o.store.Some?)
            && (store.Some? ==> fresh(store.value) && store.value.View() == o.store.value
                                && store.value.disk == after && store.value.env == env)
  {
    if secret == "" || disk.Unreadable? { return None, disk; }
    var records: Records, seen, changed := map[], ZERO_TIME, true;
    if disk.File? {
      var l := ReadTokens(env, disk.tokens);
      if l.Rejected? { return None, disk; }
      records, seen, changed := l.records, l.seen, !disk.owned;
    }
    ghost var read := records;
    var hash := env.hash(secret);
    if BOOTSTRAP_ID in records {
      var r := records[BOOTSTRAP_ID];
      if !r.bootstrap { return None, disk; }
      if r.hash != hash || r.name != BOOTSTRAP_LABEL {
        records := records[BOOTSTRAP_ID := r.(hash := hash, name := BOOTSTRAP_LABEL)];
        assert records[BOOTSTRAP_ID] != read[BOOTSTRAP_ID];
        changed := true;
      }
      assert records == read[BOOTSTRAP_ID := r.(hash := hash, name := BOOTSTRAP_LABEL)];
    } else {
      records := records[BOOTSTRAP_ID := Rec(BOOTSTRAP_ID, BOOTSTRAP_LABEL, now, None, true, hash, None)];
      assert BOOTSTRAP_ID in records;
      changed := true;
    }
    var unique := HashesDistinct(records);
    if !unique { return None, disk; }
    var live := new LiveStore(env, Fresh(records, seen), disk);
    if changed {
      var committed, failed := live.PersistLocked(false, fault);
      if failed { return None, live.disk; }
    }
    return Some(live), live.disk;
  }

  /** The channel belonged to a token that has been dealt with. */
  ghost predicate Gone(subs: map<string, set<nat>>, left: set<string>, c: nat) {
    exists id :: Waiting(subs, id, c) && id !in left
  }

  lemma GoneStep(subs: map<string, set<nat>>, left: set<string>, id: string)
    requires id in left && forall a, b, c: nat :: Waiting(subs, a, c) && Waiting(subs, b, c) ==> a == b
    ensures forall c: nat :: Gone(subs, left - {id}, c) <==> Gone(subs, left, c) || Waiting(subs, id, c)
    ensures forall c: nat :: Waiting(subs, id, c) ==> !Gone(subs, left, c)
  {
    forall c: nat ensures Gone(subs, left - {id}, c) <==> Gone(subs, left, c) || Waiting(subs, id, c) {
      if Waiting(subs, id, c) { assert Waiting(subs, id, c) && id !in left - {id}; }
    }
  }

  lemma GoneAll(subs: map<string, set<nat>>)
    ensures forall c: nat :: c in Channels(subs) <==> Gone(subs, {}, c)
  {
    forall c: nat ensures c in Channels(subs) <==> Gone(subs, {}, c) {
      if c in Channels(subs) {
        var i :| i in subs && c in subs[i];
        assert Waiting(subs, i, c);
      }
    }
  }
}
