/** The pairing object's methods on its fields, proved against module Pairing. */
module PairingCode {
  import opened Base
  import P = Pairing

  class Enrollment {
    var tokens: nat
    var ttl: int
    var alwaysOn: bool
    var open: bool
    var pin: string
    var expiresAt: int
    var lastNow: Option<int>
    var sources: map<string, P.Window>
    var total: P.Window
    const limits: P.Limits

    function View(): P.Pairing
      reads this
    {
      P.Pairing(limits, ttl, alwaysOn, open, pin, expiresAt, lastNow, sources, total)
    }

    constructor (tokens: nat, limits: P.Limits, ttl: int, alwaysOn: bool)
      requires ttl > 0
      ensures this.tokens == tokens && View() == P.Unopened(limits, ttl, alwaysOn)
    {
      this.tokens, this.limits, this.ttl, this.alwaysOn := tokens, limits, ttl, alwaysOn;
      open, pin, expiresAt, lastNow := false, "", 0, None;
      sources, total := map[], P.NONE;
    }

    method CloseLocked()
      modifies this`open, this`pin, this`expiresAt
      ensures View() == P.Close(old(View()))
    {
      open, pin, expiresAt := false, "", 0;
    }

    method OpenLocked(now: int, draw: P.Draw)
      modifies this`open, this`pin, this`expiresAt
      ensures View() == P.OpenWith(old(View()), now, draw)
    {
      if draw.None? {
        CloseLocked();
        return;
      }
      open, pin, expiresAt := true, draw.value, now + ttl;
    }

    method ObserveNow(now: int, draw: P.Draw)
      modifies this
      ensures tokens == old(tokens)
      ensures View() == P.Observe(old(View()), now, draw)
    {
      if lastNow.Some? && now < lastNow.value {
        sources, total := map[], P.NONE;
        if alwaysOn && open { OpenLocked(now, draw); } else { CloseLocked(); }
      }
      lastNow := Some(now);
    }

    method Refresh(now: int, draw: P.Draw)
      modifies this`open, this`pin, this`expiresAt
      ensures View() == P.Refresh(old(View()), now, draw)
    {
      if !open || now < expiresAt { return; }
      if alwaysOn {
        OpenLocked(now, draw);
        return;
      }
      CloseLocked();
    }

    method ExpireWindows(source: string, now: int)
      modifies this`sources, this`total
      ensures View() == P.ExpireSource(P.ExpireTotal(old(View()), now), source, now)
    {
      if P.Expired(total, now, limits.window) { total := P.NONE; }
      if source in sources && P.Expired(sources[source], now, limits.window) { sources := sources - {source}; }
    }

    /** evictExpiredSourcesLocked. */
    method Evict(now: int)
      modifies this`sources
      ensures View() == P.Evict(old(View()), now)
    {
      var left := sources.Keys;
      while left != {}
        invariant left <= old(sources).Keys
        invariant forall s :: s in sources <==>
                    s in old(sources) && (s in left || !P.Expired(old(sources)[s], now, limits.window))
        invariant forall s :: s in sources ==> sources[s] == old(sources)[s]
        decreases |left|
      {
        var s :| s in left;
        if P.Expired(sources[s], now, limits.window) { sources := sources - {s}; }
        left := left - {s};
      }
    }

    method CapacityAvailable(source: string, now: int) returns (ok: bool)
      modifies this`sources
      ensures View() == P.MakeRoom(old(View()), source, now) && ok == P.HasRoom(View(), source)
    {
      if source in sources || |sources| < limits.total { return true; }
      Evict(now);
      ok := |sources| < limits.total;
    }

    method RateLimited(source: string, now: int) returns (limited: bool)
      modifies this`sources, this`total
      ensures (View(), limited) == P.RateLimited(old(View()), source, now)
    {
      ExpireWindows(source, now);
      if total.count >= limits.total { return true; }
      if P.Of(sources, source).count >= limits.source { return true; }
      var room := CapacityAvailable(source, now);
      limited := !room;
    }

    method RecordFailure(source: string, now: int)
      modifies this`sources, this`total
      ensures View() == P.RecordFailure(old(View()), source, now)
    {
      ExpireWindows(source, now);
      total := P.Increment(total, now);
      var room := CapacityAvailable(source, now);
      if room { sources := sources[source := P.Increment(P.Of(sources, source), now)]; }
    }

    /** Exchange up to the point where a token is issued. */
    method Exchange(source: string, guess: string, now: int, d1: P.Draw, d2: P.Draw) returns (reply: P.Reply)
      modifies this
      ensures tokens == old(tokens)
      ensures var o := P.DoExchange(old(View()), source, guess, now, d1, d2); View() == o.p && reply == o.reply
    {
      ObserveNow(now, d1);
      Refresh(now, d2);
      var limited := RateLimited(source, now);
      if limited { return P.Limited; }
      if !open || guess != pin {
        RecordFailure(source, now);
        return P.Rejected;
      }
      return P.Accepted;
    }

    /** Reconfigure once the clock is read and the window refreshed. */
    method ApplyPolicy(newTtl: int, newAlwaysOn: bool, now: int, draw: P.Draw) returns (ok: bool)
      modifies this`ttl, this`alwaysOn, this`open, this`pin, this`expiresAt
      ensures var r := P.ApplyPolicy(old(View()), newTtl, newAlwaysOn, now, draw);
              ok == r.Some? && View() == if ok then r.value else old(View())
    {
      if newAlwaysOn && !open && draw.None? { return false; }
      ttl, alwaysOn := newTtl, newAlwaysOn;
      if open {
        expiresAt := now + newTtl;
      } else if newAlwaysOn {
        open, pin, expiresAt := true, draw.value, now + newTtl;
      }
      ok := true;
    }

    /** Reconfigure; `before` is what its rollback function restores. */
    method Reconfigure(newTtl: int, newAlwaysOn: bool, now: int, d1: P.Draw, d2: P.Draw, d3: P.Draw)
      returns (ok: bool, before: P.Pairing)
      modifies this
      ensures tokens == old(tokens)
      ensures newTtl > 0 ==> before == P.Begin(old(View()), now, d1, d2).0
      ensures var o := P.DoReconfigure(old(View()), newTtl, newAlwaysOn, now, d1, d2, d3);
              View() == o.p && ok == o.reply.Nothing?
    {
      if newTtl <= 0 {
        before := View();
        return false, before;
      }
      ObserveNow(now, d1);
      Refresh(now, d2);
      before := View();
      ok := ApplyPolicy(newTtl, newAlwaysOn, now, d3);
    }

    /** The rollback function of Reconfigure. */
    method RollBack(before: P.Pairing)
      modifies this`ttl, this`alwaysOn, this`open, this`pin, this`expiresAt
      ensures View() == P.Restore(old(View()), before)
    {
      ttl, alwaysOn, open, pin, expiresAt := before.ttl, before.alwaysOn, before.open, before.pin, before.expiresAt;
    }

    /** RebindStore; its rollback function binds the previous store again. */
    method RebindStore(store: nat) returns (previous: nat)
      modifies this`tokens
      ensures tokens == store && previous == old(tokens)
    {
      previous := tokens;
      tokens := store;
    }
  }
}
