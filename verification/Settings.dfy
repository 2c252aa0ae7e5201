/** The settings transaction: apply to the running daemon, save to disk, then
    commit or roll back; with enrollment going on at any time, also in between. */
module Settings {
  import opened Base
  import P = Pairing
  import PasskeyPrompt
  import A = PairingAnswers

  /** The settings the transaction distinguishes; `rest` stands for all others. */
  datatype Config = Config(token: string, tokenStore: string, ttl: int, alwaysOn: bool, advanced: bool, blePin: string,
      rest: int)

  datatype Patch = Patch(tokenStore: Option<string>, ttl: Option<int>, alwaysOn: Option<bool>, advanced: Option<bool>,
                         blePin: Option<string>, rest: Option<int>)

  /** A token store object: where it is, which bootstrap secret it was opened with,
      how often its subscribers were invalidated. */
  datatype Store = Store(path: string, bootstrap: string, invalidated: nat)

  /** The daemon: `disk` is the configuration last saved, `store` the one requests
      are authenticated against, `tokens` the one enrollment issues into. */
  datatype Live = Live(cfg: Config, disk: Config, store: nat, pending: Option<nat>, tokens: nat, pairing: P.Pairing,
                       agentPin: string, stores: seq<Store>)

  /** One update: the decoded patch, whether the rest of validation accepts it,
      whether opening a store and saving succeed, what Reconfigure reads and draws,
      and the enrollment calls that come between applying and saving. */
  datatype Request = Request(patch: Option<Patch>, valid: bool, opens: bool, saves: bool,
                             now: int, d1: P.Draw, d2: P.Draw, d3: P.Draw, meanwhile: seq<P.Call>)

  // -------------------------------------------------------------- the patch

  function Or<T>(o: Option<T>, default: T): T { if o.Some? then o.value else default }

  function Merge(c: Config, p: Patch): Config {
    Config(c.token, Or(p.tokenStore, c.tokenStore), Or(p.ttl, c.ttl), Or(p.alwaysOn, c.alwaysOn),
        Or(p.advanced, c.advanced),
           Or(p.blePin, c.blePin), Or(p.rest, c.rest))
  }

  predicate Accepts(c: Config, req: Request) {
    && req.patch.Some? && req.valid
    && (req.patch.value.blePin.Some? ==> PasskeyPrompt.SixDigits(req.patch.value.blePin.value))
    && Merge(c, req.patch.value).ttl > 0
  }

  predicate LiveFieldsChanged(a: Config, b: Config) {
    a.ttl != b.ttl || a.alwaysOn != b.alwaysOn || a.advanced != b.advanced || a.blePin != b.blePin
        || a.tokenStore != b.tokenStore
  }

  // ---------------------------------------------------------- the transaction

  /** The store requests were authenticated against and the one issued into. */
  datatype Binding = Binding(store: nat, tokens: nat)

  /** What a rollback needs. */
  datatype Undo = Undo(before: Config, after: Config, oldStore: Option<Binding>, oldPairing: Option<P.Pairing>)

  predicate PolicyChanged(a: Config, b: Config) { a.ttl != b.ttl || a.alwaysOn != b.alwaysOn }

  /** liveConfig.apply; no Undo when it fails. */
  function Apply(l: Live, after: Config, req: Request): (Live, Option<Undo>) {
    var before := l.cfg;
    var switches := before.tokenStore != after.tokenStore;
    if switches && !req.opens then (l, None)
    else
      var policy := PolicyChanged(before, after);
      var o := P.DoReconfigure(l.pairing, after.ttl, after.alwaysOn, req.now, req.d1, req.d2, req.d3);
      var stores := if switches then l.stores + [Store(after.tokenStore, before.token, 0)] else l.stores;
      if policy && !o.reply.Nothing? then (l.(pairing := o.p, stores := stores), None)
      else
        var l1 := l.(stores := stores, pairing := if policy then o.p else l.pairing);
        var l2 := if switches then l1.(store := |l.stores|, pending := Some(l.store), tokens := |l.stores|) else l1;
        var l3 := if before.blePin != after.blePin then l2.(agentPin := after.blePin) else l2;
        (l3, Some(Undo(before, after, if switches then Some(Binding(l.store, l.tokens)) else None,
                       if policy then Some(P.Begin(l.pairing, req.now, req.d1, req.d2).0) else None)))
  }

  /** The rollback function apply returns. */
  function RollBack(l: Live, u: Undo): Live {
    var l1 := if u.before.blePin != u.after.blePin then l.(agentPin := u.before.blePin) else l;
    var l2 := if u.oldStore.Some? then l1.(tokens := u.oldStore.value.tokens, store := u.oldStore.value.store,
        pending := None) else l1;
    if u.oldPairing.Some? then l2.(pairing := P.Restore(l2.pairing, u.oldPairing.value)) else l2
  }

  function Invalidate(stores: seq<Store>, i: nat): seq<Store> {
    if i < |stores| then stores[i := stores[i].(invalidated := stores[i].invalidated + 1)] else stores
  }

  function Commit(l: Live, before: Config, after: Config): Live {
    if before.tokenStore == after.tokenStore then l
    else
      l.(pending := None, stores := if l.pending.Some? then Invalidate(l.stores, l.pending.value) else l.stores)
  }

  /** Enrollment calls change anything but the policy's owner and the stores. */
  predicate Enrolls(calls: seq<P.Call>) { forall k :: 0 <= k < |calls| ==>
      !calls[k].op.Reconfigure? && !calls[k].op.RollBack? }

  function Enroll(p: P.Pairing, calls: seq<P.Call>): P.Pairing
    decreases |calls|
  {
    if calls == [] then p
    else var c := calls[0]; Enroll(P.Do(p, c.op, c.now, c.d1, c.d2, c.d3).p, calls[1..])
  }

  function Meanwhile(l: Live, calls: seq<P.Call>): Live { l.(pairing := Enroll(l.pairing, calls)) }

  /** putSettings: the daemon afterwards and whether the update succeeded. */
  function Update(l: Live, req: Request): (Live, bool) {
    if !Accepts(l.cfg, req) then (l, false)
    else
      var before, after := l.cfg, Merge(l.cfg, req.patch.value);
      var (l1, undo) := if LiveFieldsChanged(before, after) then Apply(l, after, req)
                        else (l, Some(Undo(before, after, None, None)));
      if undo.None? then (l1, false)
      else
        var l2 := Meanwhile(l1, req.meanwhile);
        if !req.saves then (RollBack(l2, undo.value), false)
        else (Commit(l2.(disk := after, cfg := after.(token := l2.cfg.token)), before, after), true)
  }

  // ---------------------------------------------------------------- invariant

  /** One store for authenticating and issuing, the one the saved configuration
      names, opened with the bootstrap secret; the saved pairing policy in force. */
  predicate Agree(l: Live) {
    && l.cfg == l.disk
    && l.store == l.tokens < |l.stores|
    && l.pending.None?
    && l.stores[l.store].path == l.disk.tokenStore
    && l.pairing.ttl == l.disk.ttl && l.pairing.alwaysOn == l.disk.alwaysOn
    && l.disk.ttl > 0
  }

  predicate AllOpenedWith(stores: seq<Store>, secret: string) { forall i :: 0 <= i < |stores| ==>
      stores[i].bootstrap == secret }

  /** A store's subscribers were invalidated exactly if a saved update left it. */
  predicate Invalidated(stores: seq<Store>, left: set<nat>) {
    forall i: nat :: i < |stores| ==> stores[i].invalidated == if i in left then 1 else 0
  }

  predicate SamePolicy(p: P.Pairing, q: P.Pairing) { p.ttl == q.ttl && p.alwaysOn == q.alwaysOn }

  lemma BeginKeepsPolicy(p: P.Pairing, now: int, d1: P.Draw, d2: P.Draw)
    ensures SamePolicy(p, P.Begin(p, now, d1, d2).0)
  {}

  lemma CallKeepsPolicy(p: P.Pairing, c: P.Call)
    requires !c.op.Reconfigure? && !c.op.RollBack?
    ensures SamePolicy(p, P.Do(p, c.op, c.now, c.d1, c.d2, c.d3).p)
  {
    BeginKeepsPolicy(p, c.now, c.d1, c.d2);
    if c.op.Exchange? { P.ExchangeOutcome(p, c.op.source, c.op.pin, c.now, c.d1, c.d2); }
  }

  lemma {:induction false} EnrollKeepsPolicy(p: P.Pairing, calls: seq<P.Call>)
    requires Enrolls(calls)
    ensures SamePolicy(p, Enroll(p, calls))
    decreases |calls|
  {
    if calls != [] {
      CallKeepsPolicy(p, calls[0]);
      EnrollKeepsPolicy(P.Do(p, calls[0].op, calls[0].now, calls[0].d1, calls[0].d2, calls[0].d3).p, calls[1..]);
    }
  }

  /** What a policy change leaves, done or failed, and what its rollback restores. */
  lemma PolicyAfter(p: P.Pairing, ttl: int, alwaysOn: bool, req: Request)
    requires ttl > 0
    ensures var o := P.DoReconfigure(p, ttl, alwaysOn, req.now, req.d1, req.d2, req.d3);
            && (o.reply.Nothing? ==> o.p.ttl == ttl && o.p.alwaysOn == alwaysOn)
            && (!o.reply.Nothing? ==> o.p.ttl == p.ttl && o.p.alwaysOn == p.alwaysOn)
    ensures var q := P.Begin(p, req.now, req.d1, req.d2).0; q.ttl == p.ttl && q.alwaysOn == p.alwaysOn
  {}

  /** Between applying and saving the daemon already runs on the new settings, the
      configuration is still the old one, and nothing was invalidated. */
  ghost predicate Applied(l: Live, l1: Live, after: Config, u: Undo) {
    && l1.cfg == l.cfg && l1.disk == l.disk
    && u.before == l.cfg && u.after == after
    && l1.store == l1.tokens < |l1.stores| && l1.stores[l1.store].path == after.tokenStore
    && l1.pairing.ttl == after.ttl && l1.pairing.alwaysOn == after.alwaysOn
    && (u.oldPairing.Some? <==> PolicyChanged(l.cfg, after))
    && (u.oldPairing.Some? ==> u.oldPairing.value.ttl == l.cfg.ttl && u.oldPairing.value.alwaysOn == l.cfg.alwaysOn)
    && (if l.cfg.tokenStore != after.tokenStore
        then l1.stores == l.stores + [Store(after.tokenStore, l.cfg.token, 0)] && l1.pending == Some(l.store)
            && u.oldStore == Some(Binding(l.store, l.tokens)) && l1.store == |l.stores|
        else l1.stores == l.stores && l1.pending.None? && u.oldStore.None? && l1.store == l.store)
  }

  lemma ApplyWorks(l: Live, after: Config, req: Request)
    requires Agree(l) && after.ttl > 0
    ensures var (l1, u) := Apply(l, after, req);
            && (u.Some? ==> Applied(l, l1, after, u.value))
            && (u.None? ==>
                  && Agree(l1) && l1 == l.(pairing := l1.pairing, stores := l1.stores)
                  && (l1.stores == l.stores || l1.stores == l.stores + [Store(after.tokenStore, l.cfg.token, 0)]))
  {
    PolicyAfter(l.pairing, after.ttl, after.alwaysOn, req);
  }

  lemma RollBackWorks(l: Live, l1: Live, after: Config, u: Undo)
    requires Agree(l) && Applied(l, l1, after, u)
    ensures Agree(RollBack(l1, u)) && RollBack(l1, u).store == l.store && RollBack(l1, u).stores == l1.stores
    ensures RollBack(l1, u).cfg == l.cfg
  {}

  lemma CommitWorks(l: Live, l1: Live, after: Config, u: Undo)
    requires Agree(l) && Applied(l, l1, after, u) && after.token == l.cfg.token && after.ttl > 0
    ensures var l2 := Commit(l1.(disk := after, cfg := after.(token := l1.cfg.token)), l.cfg, after);
            && Agree(l2) && l2.cfg == after
            && (l.cfg.tokenStore != after.tokenStore ==>
                  l2.stores == Invalidate(l1.stores, l.store) && l2.store == |l.stores|)
            && (l.cfg.tokenStore == after.tokenStore ==> l2.stores == l.stores && l2.store == l.store)
  {}

  lemma MeanwhileWorks(l: Live, l1: Live, after: Config, u: Undo, calls: seq<P.Call>)
    requires Applied(l, l1, after, u) && Enrolls(calls)
    ensures Applied(l, Meanwhile(l1, calls), after, u)
  {
    EnrollKeepsPolicy(l1.pairing, calls);
  }

  /** What one update does, wherever it fails. */
  lemma UpdateWorks(l: Live, req: Request)
    requires Agree(l) && Enrolls(req.meanwhile)
    ensures var (l', ok) := Update(l, req);
            && Agree(l')
            && (!ok ==> l'.cfg == l.cfg && l'.store == l.store && Extends(l.stores, l'.stores, l.cfg.token))
            && (ok ==> req.patch.Some? && l'.cfg == Merge(l.cfg, req.patch.value))
            && (ok && l'.cfg.tokenStore == l.cfg.tokenStore ==> l'.store == l.store && l'.stores == l.stores)
            && (ok && l'.cfg.tokenStore != l.cfg.tokenStore ==>
                  && l'.store == |l.stores|
                  && l'.stores == Invalidate(l.stores + [Store(l'.cfg.tokenStore, l.cfg.token, 0)], l.store))
  {
    if Accepts(l.cfg, req) {
      var after := Merge(l.cfg, req.patch.value);
      var (l1, undo) := if LiveFieldsChanged(l.cfg, after) then Apply(l, after, req)
                        else (l, Some(Undo(l.cfg, after, None, None)));
      if LiveFieldsChanged(l.cfg, after) { ApplyWorks(l, after, req); }
      if undo.Some? {
        MeanwhileWorks(l, l1, after, undo.value, req.meanwhile);
        var l2 := Meanwhile(l1, req.meanwhile);
        if req.saves { CommitWorks(l, l2, after, undo.value); } else { RollBackWorks(l, l2, after, undo.value); }
      }
    }
  }

  /** At most one unused store was opened on the way. */
  ghost predicate Extends(a: seq<Store>, b: seq<Store>, secret: string) {
    b == a || exists path :: b == a + [Store(path, secret, 0)]
  }

  // ------------------------------------------------------------- whole runs

  datatype Event = Put(req: Request) | Enrollment(call: P.Call)

  /** A run, and the stores that saved updates left behind. */
  datatype Run = Run(l: Live, left: set<nat>)

  predicate Proper(ev: Event) { if ev.Put? then Enrolls(ev.req.meanwhile) else Enrolls([ev.call]) }

  function Advance(r: Run, ev: Event): Run {
    match ev
    case Put(req) =>
      var (l', ok) := Update(r.l, req);
      Run(l', if ok && l'.cfg.tokenStore != r.l.cfg.tokenStore then r.left + {r.l.store} else r.left)
    case Enrollment(call) => r.(l := Meanwhile(r.l, [call]))
  }

  function Play(r: Run, evs: seq<Event>): Run
    decreases |evs|
  {
    if evs == [] then r else Play(Advance(r, evs[0]), evs[1..])
  }

  function Boot(c: Config, limits: P.Limits): Run
    requires c.ttl > 0
  {
    Run(Live(c, c, 0, None, 0, P.Unopened(limits, c.ttl, c.alwaysOn), c.blePin, [Store(c.tokenStore, c.token, 0)]), {})
  }

  predicate Inv(r: Run, secret: string) {
    && Agree(r.l) && r.l.cfg.token == secret
    && AllOpenedWith(r.l.stores, secret)
    && Invalidated(r.l.stores, r.left)
    && r.l.store !in r.left && (forall i :: i in r.left ==> i < |r.l.stores|)
  }

  lemma PutKeeps(r: Run, req: Request, secret: string)
    requires Inv(r, secret) && Enrolls(req.meanwhile)
    ensures Inv(Advance(r, Put(req)), secret)
  {
    UpdateWorks(r.l, req);
    var (l', ok) := Update(r.l, req);
    if !ok && l'.stores != r.l.stores {
      var path :| l'.stores == r.l.stores + [Store(path, secret, 0)];
    }
  }

  lemma StepKeeps(r: Run, ev: Event, secret: string)
    requires Inv(r, secret) && Proper(ev)
    ensures Inv(Advance(r, ev), secret)
  {
    match ev
    case Put(req) => PutKeeps(r, req, secret);
    case Enrollment(call) => EnrollKeepsPolicy(r.l.pairing, [call]);
  }

  lemma {:induction false} PlayKeeps(r: Run, evs: seq<Event>, secret: string)
    requires Inv(r, secret) && forall k :: 0 <= k < |evs| ==> Proper(evs[k])
    ensures Inv(Play(r, evs), secret)
    decreases |evs|
  {
    if evs != [] {
      StepKeeps(r, evs[0], secret);
      PlayKeeps(Advance(r, evs[0]), evs[1..], secret);
    }
  }

  /** After any sequence of updates and enrollment calls, whatever failed: requests
      are authenticated against the store that enrollment issues into, it is the one
      at the path of the last saved configuration and was opened with the daemon's
      secret, the saved pairing policy is in force, and a store's subscribers were
      invalidated (once) exactly if a saved update left it. */
  lemma SettingsAgree(c: Config, limits: P.Limits, evs: seq<Event>)
    requires c.ttl > 0 && forall k :: 0 <= k < |evs| ==> Proper(evs[k])
    ensures var r := Play(Boot(c, limits), evs); var l := r.l;
            && l.cfg == l.disk && l.store == l.tokens < |l.stores| && l.pending.None?
            && l.stores[l.store].path == l.disk.tokenStore && l.stores[l.store].bootstrap == c.token
            && l.pairing.ttl == l.disk.ttl && l.pairing.alwaysOn == l.disk.alwaysOn
            && l.store !in r.left
            && forall i: nat :: i < |l.stores| ==> l.stores[i].invalidated == if i in r.left then 1 else 0
  {
    PlayKeeps(Boot(c, limits), evs, c.token);
  }

  /** The BLE agent's PIN goes with the saved one, as long as nothing else sets it. */
  lemma AgentFollows(l: Live, req: Request)
    requires l.agentPin == l.cfg.blePin
    ensures Update(l, req).0.agentPin == Update(l, req).0.cfg.blePin
  {
    if req.patch.Some? { ApplyAgent(l, Merge(l.cfg, req.patch.value), req); }
  }

  lemma ApplyAgent(l: Live, after: Config, req: Request)
    requires l.agentPin == l.cfg.blePin
    ensures var (l1, u) := Apply(l, after, req);
            && l1.cfg == l.cfg && l1.agentPin == (if u.Some? then after.blePin else l.cfg.blePin)
            && (u.Some? ==> u.value.before == l.cfg && u.value.after == after)
  {}

  /** An update whose save fails restores store, policy, and the enrollment window as
      it was when the policy was changed, whatever enrollment did meanwhile. */
  lemma FailedSaveRestores(l: Live, req: Request)
    requires Agree(l) && Enrolls(req.meanwhile) && Accepts(l.cfg, req) && !req.saves
    ensures var (l', ok) := Update(l, req); var after := Merge(l.cfg, req.patch.value);
            var q := P.Begin(l.pairing, req.now, req.d1, req.d2).0;
            && !ok && l'.cfg == l.cfg && l'.disk == l.disk && l'.store == l.store == l'.tokens
            && (PolicyChanged(l.cfg, after) && Apply(l, after, req).1.Some? ==>
                  l'.pairing.open == q.open && l'.pairing.pin == q.pin && l'.pairing.expiresAt == q.expiresAt)
  {
    UpdateWorks(l, req);
  }

  /** The update gets as far as saving. */
  predicate ReachesSave(l: Live, req: Request) {
    && Accepts(l.cfg, req)
    && var after := Merge(l.cfg, req.patch.value); LiveFieldsChanged(l.cfg, after) ==> Apply(l, after, req).1.Some?
  }

  /** The store that a client enrolling between applying and saving is issued into. */
  function MeanwhileStore(l: Live, req: Request): nat
    requires ReachesSave(l, req)
  {
    var after := Merge(l.cfg, req.patch.value);
    if LiveFieldsChanged(l.cfg, after) then Apply(l, after, req).0.tokens else l.tokens
  }

  /** What a failed save does not undo: a client that enrolled meanwhile is in the
      store requests are authenticated against afterwards if and only if the save
      succeeded or the token store was not being switched.  Otherwise its secret is
      in the store that was given up. */
  lemma EnrolledMeanwhileKept(l: Live, req: Request)
    requires Agree(l) && Enrolls(req.meanwhile) && ReachesSave(l, req)
    ensures var l' := Update(l, req).0;
            && MeanwhileStore(l, req) < |l'.stores|
            && (MeanwhileStore(l, req) == l'.store <==>
                  req.saves || Merge(l.cfg, req.patch.value).tokenStore == l.cfg.tokenStore)
  {
    var after := Merge(l.cfg, req.patch.value);
    UpdateWorks(l, req);
    if LiveFieldsChanged(l.cfg, after) {
      ApplyWorks(l, after, req);
      var (l1, u) := Apply(l, after, req);
      MeanwhileWorks(l, l1, after, u.value, req.meanwhile);
      var l2 := Meanwhile(l1, req.meanwhile);
      if !req.saves { RollBackWorks(l, l2, after, u.value); }
    }
  }

  // ------------------------------------------------ which updates succeed

  /** A field takes the patched value, or stays if the patch leaves it out. */
  predicate Takes<T(==)>(patched: Option<T>, was: T, now: T) {
    (patched.Some? ==> now == patched.value) && (patched.None? ==> now == was)
  }

  /** Each field follows its own entry of the patch; the bootstrap secret has none. */
  lemma MergeExactly(c: Config, p: Patch, d: Config)
    ensures d == Merge(c, p) <==>
            && d.token == c.token
            && Takes(p.tokenStore, c.tokenStore, d.tokenStore) && Takes(p.ttl, c.ttl, d.ttl)
            && Takes(p.alwaysOn, c.alwaysOn, d.alwaysOn) && Takes(p.advanced, c.advanced, d.advanced)
            && Takes(p.blePin, c.blePin, d.blePin) && Takes(p.rest, c.rest, d.rest)
  {}

  /** Switching enrollment on while no PIN is open needs a new one. */
  predicate NeedsPin(l: Live, after: Config, req: Request) {
    PolicyChanged(l.cfg, after) && after.alwaysOn && A.Kept(l.pairing, req.now, req.d1, req.d2).Closed?
  }

  lemma ApplySucceedsExactly(l: Live, after: Config, req: Request)
    requires l.pairing.ttl > 0 && after.ttl > 0
    ensures Apply(l, after, req).1.Some? <==>
            (after.tokenStore != l.cfg.tokenStore ==> req.opens) && (NeedsPin(l, after, req) ==> req.d3.Some?)
  {
    A.LeaseExactly(l.pairing, P.Call(P.Reconfigure(after.ttl, after.alwaysOn), req.now, req.d1, req.d2, req.d3));
  }

  /** An update succeeds if and only if it decodes, every field is acceptable, the new
      token store (if it is another one) opens, the PIN it needs (if any) can be drawn,
      and the configuration is saved. */
  lemma UpdateSucceedsExactly(l: Live, req: Request)
    requires Agree(l)
    ensures Update(l, req).1 <==>
            && req.patch.Some? && req.valid && req.saves
            && var p := req.patch.value; var after := Merge(l.cfg, p);
               && (p.blePin.Some? ==> PasskeyPrompt.SixDigits(p.blePin.value))
               && (p.ttl.Some? ==> p.ttl.value > 0)
               && (p.tokenStore.Some? && p.tokenStore.value != l.cfg.tokenStore ==> req.opens)
               && (NeedsPin(l, after, req) ==> req.d3.Some?)
  {
    if Accepts(l.cfg, req) { ApplySucceedsExactly(l, Merge(l.cfg, req.patch.value), req); }
  }

  /** What a successful update does to an open PIN: it stays, with the new lifetime
      counted from the update if the policy changed; if none is open, always-on
      enrollment opens one. */
  lemma UpdatedLease(l: Live, req: Request)
    requires Agree(l) && Update(l, req).1 && req.meanwhile == []
    ensures var after := Merge(l.cfg, req.patch.value); var kept := A.Kept(l.pairing, req.now, req.d1, req.d2);
            A.LeaseOf(Update(l, req).0.pairing) ==
            if !PolicyChanged(l.cfg, after) then A.LeaseOf(l.pairing)
            else if kept.Leased? then A.Leased(kept.pin, req.now + after.ttl)
            else A.Renewed(after.alwaysOn, req.d3, req.now + after.ttl)
  {
    var after := Merge(l.cfg, req.patch.value);
    A.LeaseExactly(l.pairing, P.Call(P.Reconfigure(after.ttl, after.alwaysOn), req.now, req.d1, req.d2, req.d3));
  }
}
