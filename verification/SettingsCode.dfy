/** The daemon's live configuration and the settings handler, over the enrollment
    object they share. */
module SettingsCode {
  import opened Base
  import P = Pairing
  import opened PairingCode
  import opened Settings
  import PasskeyPrompt

  class Daemon {
    var cfg: Config
    var disk: Config
    var store: nat
    var pendingOldStore: Option<nat>
    var agentPin: string
    var stores: seq<Store>
    const pairing: Enrollment

    ghost function View(): Live
      reads this, pairing
    {
      Live(cfg, disk, store, pendingOldStore, pairing.tokens, pairing.View(), agentPin, stores)
    }

    constructor (c: Config, limits: P.Limits)
      requires c.ttl > 0
      ensures View() == Boot(c, limits).l && fresh(pairing)
    {
      cfg, disk, store, pendingOldStore := c, c, 0, None;
      agentPin, stores := c.blePin, [Store(c.tokenStore, c.token, 0)];
      pairing := new Enrollment(0, limits, c.ttl, c.alwaysOn);
    }

    /** A second store object comes into being even at a path already open. */
    method OpenStore(path: string, bootstrap: string, opens: bool) returns (id: Option<nat>)
      modifies this`stores
      ensures id == if opens then Some(|old(stores)|) else None
      ensures stores == if opens then old(stores) + [Store(path, bootstrap, 0)] else old(stores)
    {
      if !opens { return None; }
      stores := stores + [Store(path, bootstrap, 0)];
      id := Some(|stores| - 1);
    }

    method SwitchStore(next: nat) returns (previous: Binding)
      modifies this`store, this`pendingOldStore, pairing`tokens
      ensures previous == Binding(old(store), old(pairing.tokens))
      ensures View() == old(View()).(store := next, pending := Some(old(store)), tokens := next)
    {
      var oldStore := store;
      store, pendingOldStore := next, Some(oldStore);
      var oldTokens := pairing.RebindStore(next);
      previous := Binding(oldStore, oldTokens);
    }

    method Apply(after: Config, req: Request) returns (undo: Option<Undo>)
      requires after.ttl > 0
      modifies this, pairing
      ensures (View(), undo) == Settings.Apply(old(View()), after, req)
    {
      var before := cfg;
      var newStore: Option<nat> := None;
      if before.tokenStore != after.tokenStore {
        newStore := OpenStore(after.tokenStore, before.token, req.opens);
        if newStore.None? { return None; }
      }
      var oldPairing: Option<P.Pairing> := None;
      if before.ttl != after.ttl || before.alwaysOn != after.alwaysOn {
        var ok, saved := pairing.Reconfigure(after.ttl, after.alwaysOn, req.now, req.d1, req.d2, req.d3);
        if !ok { return None; }
        oldPairing := Some(saved);
      }
      var oldStore: Option<Binding> := None;
      if newStore.Some? {
        var previous := SwitchStore(newStore.value);
        oldStore := Some(previous);
      }
      if before.blePin != after.blePin { agentPin := after.blePin; }
      undo := Some(Undo(before, after, oldStore, oldPairing));
    }

    /** The rollback function Apply returns. */
    method RollBack(u: Undo)
      modifies this, pairing
      ensures View() == Settings.RollBack(old(View()), u)
    {
      if u.before.blePin != u.after.blePin { agentPin := u.before.blePin; }
      if u.oldStore.Some? {
        var was := pairing.RebindStore(u.oldStore.value.tokens);
        store, pendingOldStore := u.oldStore.value.store, None;
      }
      if u.oldPairing.Some? { pairing.RollBack(u.oldPairing.value); }
    }

    method Save(next: Config, saves: bool) returns (ok: bool)
      modifies this`cfg, this`disk
      ensures ok == saves
      ensures View() == if saves then old(View()).(disk := next, cfg := next.(token := old(cfg).token)) else old(View())
    {
      var bootstrap := cfg.token;
      if !saves { return false; }
      disk := next;
      cfg := next.(token := bootstrap);
      ok := true;
    }

    method Commit(before: Config, after: Config)
      modifies this`pendingOldStore, this`stores
      ensures View() == Settings.Commit(old(View()), before, after)
    {
      if before.tokenStore == after.tokenStore { return; }
      var oldStore := pendingOldStore;
      pendingOldStore := None;
      if oldStore.Some? && oldStore.value < |stores| {
        var i := oldStore.value;
        stores := stores[i := stores[i].(invalidated := stores[i].invalidated + 1)];
      }
    }

    /** The settings handler, nothing coming in between. */
    method PutSettings(req: Request) returns (ok: bool)
      requires Agree(View()) && req.meanwhile == []
      modifies this, pairing
      ensures (View(), ok) == Update(old(View()), req)
      ensures Agree(View())
    {
      UpdateWorks(View(), req);
      if req.patch.None? || !req.valid { return false; }
      var before, patch := cfg, req.patch.value;
      var after := Merge(before, patch);
      if patch.blePin.Some? && !PasskeyPrompt.SixDigits(patch.blePin.value) { return false; }
      if after.ttl <= 0 { return false; }
      var undo := Some(Undo(before, after, None, None));
      if LiveFieldsChanged(before, after) {
        undo := Apply(after, req);
        if undo.None? { return false; }
      }
      assert Meanwhile(View(), []) == View();
      ok := Save(after, req.saves);
      if !ok {
        RollBack(undo.value);
        return;
      }
      if before.tokenStore != after.tokenStore { Commit(before, after); }
    }
  }
}
