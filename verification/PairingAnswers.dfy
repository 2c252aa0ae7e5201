/** What an enrollment attempt is answered, both ways, over whole runs.

    The reference is the list of failures recorded since the clock last went
    backwards, kept from the replies alone, and the lease: the PIN that is open and
    when it expires.  Neither mentions a counter. */
module PairingAnswers {
  import opened Base
  import opened Pairing
  import opened PairingRates

  // ------------------------------------------------ windows of a failure log

  /** The first failure of the newest window: a failure a whole window after the first
      of its window begins the next. */
  function Head(log: seq<int>, window: int): (h: nat)
    requires log != []
    ensures h < |log|
    decreases |log|
  {
    var n := |log| - 1;
    if n == 0 then 0
    else
      var h := Head(log[..n], window);
      if log[n] >= log[h] + window then n else h
  }

  /** How many failures the window that is current at `now` holds. */
  function Live(log: seq<int>, window: int, now: int): nat {
    if log == [] || now >= log[Head(log, window)] + window then 0 else |log| - Head(log, window)
  }

  function LiveSources(recent: seq<Failure>, window: int, now: int): set<string> {
    set f | f in recent && Live(SourceLog(recent, f.source), window, now) > 0 :: f.source
  }

  /** An attempt is limited by the failures in the current windows: overall, from its
      own source, or because that many other sources have failed. */
  predicate OverLimit(limits: Limits, recent: seq<Failure>, source: string, now: int) {
    || Live(TotalLog(recent), limits.window, now) >= limits.total
    || Live(SourceLog(recent, source), limits.window, now) >= limits.source
    || (source !in LiveSources(recent, limits.window, now)
        && |LiveSources(recent, limits.window, now)| >= limits.total)
  }

  // ------------------------------------------------------------------- leases

  datatype Lease = Closed | Leased(pin: string, until: int)

  function LeaseOf(p: Pairing): Lease { if p.open then Leased(p.pin, p.expiresAt) else Closed }

  function Renewed(on: bool, d: Draw, until: int): Lease {
    if on && d.Some? then Leased(d.value, until) else Closed
  }

  /** What is left of the lease when an operation reads the clock: an unexpired one
      under a clock that has not gone back stays; otherwise enrollment closes, or is
      renewed with a new PIN if it is always on. */
  function Kept(p: Pairing, now: int, d1: Draw, d2: Draw): Lease {
    match LeaseOf(p)
    case Closed => Closed
    case Leased(pin, until) =>
      if Backwards(p, now) then Renewed(p.alwaysOn, d1, now + p.ttl)
      else if until <= now then Renewed(p.alwaysOn, d2, now + p.ttl)
      else Leased(pin, until)
  }

  /** The lease after each operation, and which policy changes succeed. */
  lemma LeaseExactly(p: Pairing, c: Call)
    requires p.ttl > 0
    ensures var o := Done(p, c); var kept := Kept(p, c.now, c.d1, c.d2);
            match c.op
            case Open => LeaseOf(o.p) == Renewed(true, c.d2, c.now + p.ttl)
            case Status => LeaseOf(o.p) == kept
            case Exchange(_, _) => LeaseOf(o.p) == kept
            case CloseNow => LeaseOf(o.p) == Closed
            case RollBack(before) => LeaseOf(o.p) == LeaseOf(before)
            case Reconfigure(ttl, on) =>
              && (o.reply.Nothing? <==> ttl > 0 && (on && kept.Closed? ==> c.d3.Some?))
              && (ttl <= 0 ==> o.p == p)
              && (ttl > 0 && !o.reply.Nothing? ==>
                    LeaseOf(o.p) == kept && o.p.ttl == p.ttl && o.p.alwaysOn == p.alwaysOn)
              && (o.reply.Nothing? ==>
                    && o.p.ttl == ttl && o.p.alwaysOn == on
                    && LeaseOf(o.p) == if kept.Leased? then Leased(kept.pin, c.now + ttl)
                                       else Renewed(on, c.d3, c.now + ttl))
  {
    BeginKeeps(p, c.now, c.d1, c.d2);
    if c.op.Exchange? { ExchangeOutcome(p, c.op.source, c.op.pin, c.now, c.d1, c.d2); }
  }

  lemma BeginKeeps(p: Pairing, now: int, d1: Draw, d2: Draw)
    requires p.ttl > 0
    ensures var q := Begin(p, now, d1, d2).0;
            LeaseOf(q) == Kept(p, now, d1, d2) && q.ttl == p.ttl && q.alwaysOn == p.alwaysOn && q.limits == p.limits
  {}

  // ---------------------------------------------------------------- invariant

  /** The window counts the newest window of the log, or nothing once that is over. */
  predicate Tracks(w: Window, log: seq<int>, window: int, now: int) {
    || (log != [] && w == Window(log[Head(log, window)], |log| - Head(log, window)))
    || (w.count == 0 && (log == [] || log[Head(log, window)] + window <= now))
  }

  lemma TracksLive(w: Window, log: seq<int>, window: int, now: int)
    requires Tracks(w, log, window, now)
    ensures (if Expired(w, now, window) then 0 else w.count) == Live(log, window, now)
    ensures Expired(w, now, window) ==> Tracks(NONE, log, window, now)
  {}

  lemma TracksSnoc(w: Window, log: seq<int>, window: int, now: int)
    requires Tracks(w, log, window, now) && !Expired(w, now, window)
    ensures Tracks(Increment(w, now), log + [now], window, now)
  {
    var log' := log + [now];
    assert log'[..|log|] == log;
    if log == [] { assert Head(log', window) == 0; }
  }

  ghost predicate TracksAll(p: Pairing, recent: seq<Failure>, now: int) {
    && Tracks(p.total, TotalLog(recent), p.limits.window, now)
    && forall s {:trigger Of(p.sources, s)} :: TracksFor(p, recent, now, s)
  }

  ghost predicate TracksFor(p: Pairing, recent: seq<Failure>, now: int, s: string) {
    && Tracks(Of(p.sources, s), SourceLog(recent, s), p.limits.window, now)
    && (s in p.sources ==> p.sources[s].count > 0)
  }

  lemma TracksLater(p: Pairing, recent: seq<Failure>, last: int, now: int)
    requires TracksAll(p, recent, last) && last <= now
    ensures TracksAll(p, recent, now)
  {
    forall s ensures TracksFor(p, recent, now, s) {
      assert Of(p.sources, s) == Of(p.sources, s) && TracksFor(p, recent, last, s);
    }
  }

  lemma ForgetsTracks(p: Pairing, q: Pairing, recent: seq<Failure>, now: int)
    requires Forgets(p, q, now) && TracksAll(p, recent, now)
    ensures TracksAll(q, recent, now)
  {
    TracksLive(p.total, TotalLog(recent), p.limits.window, now);
    forall s ensures TracksFor(q, recent, now, s) {
      assert Of(p.sources, s) == Of(p.sources, s) && TracksFor(p, recent, now, s);
      assert Of(q.sources, s) == Of(q.sources, s) && ForgetsFor(p, q, now, s);
      TracksLive(Of(p.sources, s), SourceLog(recent, s), p.limits.window, now);
    }
  }

  lemma RecordedTracks(r: Pairing, recent: seq<Failure>, source: string, now: int)
    requires TracksAll(r, recent, now)
    requires !Expired(r.total, now, r.limits.window) && !Expired(Of(r.sources, source), now, r.limits.window)
    ensures TracksAll(Recorded(r, source, now), recent + [Failure(now, source)], now)
  {
    var r', f' := Recorded(r, source, now), recent + [Failure(now, source)];
    TracksSnoc(r.total, TotalLog(recent), r.limits.window, now);
    assert TotalLog(f') == TotalLog(recent) + [now];
    assert f'[..|recent|] == recent;
    forall s ensures TracksFor(r', f', now, s) {
      assert Of(r.sources, s) == Of(r.sources, s) && TracksFor(r, recent, now, s);
      if s == source {
        TracksSnoc(Of(r.sources, s), SourceLog(recent, s), r.limits.window, now);
      } else {
        assert SourceLog(f', s) == SourceLog(recent, s);
      }
    }
  }

  // ------------------------------------------------------ the limit decision

  lemma {:induction false} SourceFailed(recent: seq<Failure>, s: string)
    requires SourceLog(recent, s) != []
    ensures exists f :: f in recent && f.source == s
  {
    var n := |recent| - 1;
    if recent[n].source == s {
      assert recent[n] in recent;
    } else {
      SourceFailed(recent[..n], s);
    }
  }

  lemma LiveSource(recent: seq<Failure>, window: int, now: int, s: string)
    ensures s in LiveSources(recent, window, now) <==> Live(SourceLog(recent, s), window, now) > 0
  {
    if Live(SourceLog(recent, s), window, now) > 0 { SourceFailed(recent, s); }
  }

  /** The sources of unexpired windows are the live ones. */
  lemma UnexpiredLive(p: Pairing, recent: seq<Failure>, now: int, s: string)
    requires TracksAll(p, recent, now)
    ensures s in LiveSources(recent, p.limits.window, now) <==>
            s in p.sources && !Expired(p.sources[s], now, p.limits.window)
  {
    assert Of(p.sources, s) == Of(p.sources, s) && TracksFor(p, recent, now, s);
    TracksLive(Of(p.sources, s), SourceLog(recent, s), p.limits.window, now);
    LiveSource(recent, p.limits.window, now, s);
  }

  lemma EvictLeavesLive(p: Pairing, recent: seq<Failure>, now: int)
    requires TracksAll(p, recent, now)
    ensures Evict(p, now).sources.Keys == LiveSources(recent, p.limits.window, now)
    ensures LiveSources(recent, p.limits.window, now) <= p.sources.Keys
  {
    forall s ensures s in Evict(p, now).sources <==> s in LiveSources(recent, p.limits.window, now) {
      UnexpiredLive(p, recent, now, s);
    }
  }

  /** The capacity check fails exactly when the table would be full of live sources. */
  lemma RoomExactly(p: Pairing, recent: seq<Failure>, source: string, now: int)
    requires TracksAll(p, recent, now) && !Expired(Of(p.sources, source), now, p.limits.window)
    ensures HasRoom(MakeRoom(p, source, now), source) <==>
            || source in LiveSources(recent, p.limits.window, now)
            || |LiveSources(recent, p.limits.window, now)| < p.limits.total
  {
    EvictLeavesLive(p, recent, now);
    UnexpiredLive(p, recent, now, source);
    var live, q := LiveSources(recent, p.limits.window, now), Evict(p, now);
    SetSize(live, p.sources.Keys);
    assert |q.sources| == |q.sources.Keys| && |p.sources| == |p.sources.Keys|;
  }

  lemma LimitedExactly(p: Pairing, recent: seq<Failure>, source: string, now: int)
    requires TracksAll(p, recent, now)
    ensures RateLimited(p, source, now).1 <==> OverLimit(p.limits, recent, source, now)
  {
    var q := ExpireSource(ExpireTotal(p, now), source, now);
    ExpireForgets(p, source, now);
    ForgetsTracks(p, q, recent, now);
    TracksLive(q.total, TotalLog(recent), p.limits.window, now);
    assert Of(q.sources, source) == Of(q.sources, source) && TracksFor(q, recent, now, source);
    TracksLive(Of(q.sources, source), SourceLog(recent, source), p.limits.window, now);
    RoomExactly(q, recent, source, now);
  }

  // --------------------------------------------------------------- whole runs

  /** The pairing, and the failures since the clock last went backwards. */
  datatype History = History(p: Pairing, recent: seq<Failure>)

  function Recent(h: History, c: Call): seq<Failure> {
    if Reads(c.op) && Backwards(h.p, c.now) then [] else h.recent
  }

  function Advance(h: History, c: Call): History {
    var o := Done(h.p, c);
    History(o.p, Recent(h, c) + if c.op.Exchange? && o.reply.Rejected? then [Failure(c.now, c.op.source)] else [])
  }

  function Run(h: History, calls: seq<Call>): History
    decreases |calls|
  {
    if calls == [] then h else Run(Advance(h, calls[0]), calls[1..])
  }

  function Start(limits: Limits, ttl: int, alwaysOn: bool): History {
    History(Unopened(limits, ttl, alwaysOn), [])
  }

  ghost predicate Inv(h: History) {
    && h.p.ttl > 0
    && match h.p.lastNow
       case None => h.recent == [] && h.p.sources == map[] && h.p.total == NONE
       case Some(now) => TracksAll(h.p, h.recent, now)
  }

  lemma NothingTracked(p: Pairing, now: int)
    requires p.sources == map[] && p.total == NONE
    ensures TracksAll(p, [], now)
  {
    forall s ensures TracksFor(p, [], now, s) {}
  }

  lemma SameWindows(p: Pairing, q: Pairing, recent: seq<Failure>, now: int)
    requires TracksAll(p, recent, now) && q.limits == p.limits && q.sources == p.sources && q.total == p.total
    ensures TracksAll(q, recent, now)
  {
    forall s ensures TracksFor(q, recent, now, s) {
      assert Of(p.sources, s) == Of(q.sources, s) && TracksFor(p, recent, now, s);
    }
  }

  /** Reading the clock leaves the windows, or clears them if it went backwards. */
  lemma ReadWindows(p: Pairing, now: int, d1: Draw, d2: Draw)
    ensures var q, o := Begin(p, now, d1, d2).0, DoOpen(p, now, d1, d2).p;
            && q.limits == o.limits == p.limits && q.lastNow == o.lastNow == Some(now)
            && q.sources == o.sources == (if Backwards(p, now) then map[] else p.sources)
            && q.total == o.total == (if Backwards(p, now) then NONE else p.total)
  {}

  lemma ReadTracks(h: History, q: Pairing, now: int)
    requires Inv(h) && q.limits == h.p.limits
    requires q.sources == (if Backwards(h.p, now) then map[] else h.p.sources)
    requires q.total == (if Backwards(h.p, now) then NONE else h.p.total)
    ensures TracksAll(q, if Backwards(h.p, now) then [] else h.recent, now)
  {
    if Backwards(h.p, now) || h.p.lastNow.None? {
      NothingTracked(q, now);
    } else {
      TracksLater(h.p, h.recent, h.p.lastNow.value, now);
      SameWindows(h.p, q, h.recent, now);
    }
  }

  lemma AttemptTracks(q: Pairing, recent: seq<Failure>, source: string, now: int)
    requires TracksAll(q, recent, now)
    ensures var (r, limited) := RateLimited(q, source, now);
            && TracksAll(r, recent, now)
            && (!limited ==> TracksAll(RecordFailure(r, source, now), recent + [Failure(now, source)], now))
  {
    var (r, limited) := RateLimited(q, source, now);
    RateLimitedForgets(q, source, now);
    ForgetsTracks(q, r, recent, now);
    if !limited {
      RecordCounts(q, source, now);
      NotExpired(q, source, now);
      RecordedTracks(r, recent, source, now);
    }
  }

  lemma NotExpired(q: Pairing, source: string, now: int)
    ensures var r := RateLimited(q, source, now).0;
            !Expired(r.total, now, r.limits.window) && !Expired(Of(r.sources, source), now, r.limits.window)
  {}

  lemma ExchangeTracks(h: History, c: Call)
    requires Inv(h) && c.op.Exchange?
    ensures TracksAll(Advance(h, c).p, Advance(h, c).recent, c.now) && Advance(h, c).p.lastNow == Some(c.now)
  {
    var q, recent := Begin(h.p, c.now, c.d1, c.d2).0, Recent(h, c);
    ReadWindows(h.p, c.now, c.d1, c.d2);
    ReadTracks(h, q, c.now);
    AttemptTracks(q, recent, c.op.source, c.now);
    ExchangeReads(h.p, c.op.source, c.op.pin, c.now, c.d1, c.d2);
    assert recent + [] == recent;
  }

  /** Every policy that was ever in force had a positive lifetime. */
  predicate LegalCall(c: Call) { c.op.RollBack? ==> c.op.before.ttl > 0 }

  lemma TtlStays(p: Pairing, c: Call)
    requires p.ttl > 0 && LegalCall(c)
    ensures Done(p, c).p.ttl > 0 && Done(p, c).p.limits == p.limits
  {
    BeginKeeps(p, c.now, c.d1, c.d2);
    if c.op.Exchange? { ExchangeOutcome(p, c.op.source, c.op.pin, c.now, c.d1, c.d2); }
    if c.op.Reconfigure? && c.op.ttl > 0 { ReconfigureWindows(p, c); }
  }

  lemma OtherWindows(p: Pairing, c: Call)
    requires !c.op.Exchange?
    ensures var q := Done(p, c).p; var back := Reads(c.op) && Backwards(p, c.now);
            && q.limits == p.limits && q.lastNow == (if Reads(c.op) then Some(c.now) else p.lastNow)
            && q.sources == (if back then map[] else p.sources) && q.total == (if back then NONE else p.total)
  {
    match c.op
    case Open => ReadWindows(p, c.now, c.d1, c.d2);
    case Status => ReadWindows(p, c.now, c.d1, c.d2);
    case Reconfigure(ttl, on) =>
      if ttl > 0 {
        ReadWindows(p, c.now, c.d1, c.d2);
        ReconfigureWindows(p, c);
      }
    case _ =>
  }

  lemma ReconfigureWindows(p: Pairing, c: Call)
    requires c.op.Reconfigure? && c.op.ttl > 0
    ensures var o, q := Done(p, c).p, Begin(p, c.now, c.d1, c.d2).0;
            && o.limits == q.limits && o.lastNow == q.lastNow && o.sources == q.sources && o.total == q.total
            && (o.ttl == q.ttl || o.ttl == c.op.ttl)
  {}

  lemma StepKeeps(h: History, c: Call)
    requires Inv(h) && LegalCall(c)
    ensures Inv(Advance(h, c)) && Advance(h, c).p.limits == h.p.limits
  {
    TtlStays(h.p, c);
    if c.op.Exchange? {
      ExchangeTracks(h, c);
    } else {
      OtherWindows(h.p, c);
      assert Recent(h, c) + [] == Recent(h, c);
      if Reads(c.op) {
        ReadTracks(h, Advance(h, c).p, c.now);
      } else if h.p.lastNow.Some? {
        SameWindows(h.p, Advance(h, c).p, h.recent, h.p.lastNow.value);
      }
    }
  }

  /** An attempt is limited if and only if the failures in the current windows say so,
      and accepted if and only if it is not limited and names the PIN that is open. */
  lemma AttemptExactly(h: History, c: Call)
    requires Inv(h) && c.op.Exchange?
    ensures var kept := Kept(h.p, c.now, c.d1, c.d2);
            Done(h.p, c).reply ==
            if OverLimit(h.p.limits, Recent(h, c), c.op.source, c.now) then Limited
            else if kept.Leased? && kept.pin == c.op.pin then Accepted
            else Rejected
  {
    var q := Begin(h.p, c.now, c.d1, c.d2).0;
    ReadWindows(h.p, c.now, c.d1, c.d2);
    ReadTracks(h, q, c.now);
    LimitedExactly(q, Recent(h, c), c.op.source, c.now);
    BeginKeeps(h.p, c.now, c.d1, c.d2);
    ReplyExactly(h.p, c);
  }

  lemma ReplyExactly(p: Pairing, c: Call)
    requires c.op.Exchange?
    ensures var q := Begin(p, c.now, c.d1, c.d2).0;
            Done(p, c).reply ==
            if RateLimited(q, c.op.source, c.now).1 then Limited
            else if q.open && q.pin == c.op.pin then Accepted
            else Rejected
  {
    RateLimitedKeepsPin(Begin(p, c.now, c.d1, c.d2).0, c.op.source, c.now);
  }

  lemma {:induction false} RunKeeps(h: History, calls: seq<Call>)
    requires Inv(h) && forall c :: c in calls ==> LegalCall(c)
    ensures Inv(Run(h, calls)) && Run(h, calls).p.limits == h.p.limits
    decreases |calls|
  {
    if calls != [] {
      assert calls[0] in calls;
      StepKeeps(h, calls[0]);
      RunKeeps(Advance(h, calls[0]), calls[1..]);
    }
  }

  /** After any calls, whatever the clock did, the next attempt is answered by the
      failures since the clock last went backwards and by the open PIN, and by
      nothing else. */
  lemma AnswersExactly(limits: Limits, ttl: int, alwaysOn: bool, calls: seq<Call>, c: Call)
    requires ttl > 0 && c.op.Exchange? && forall d :: d in calls ==> LegalCall(d)
    ensures var h := Run(Start(limits, ttl, alwaysOn), calls); var kept := Kept(h.p, c.now, c.d1, c.d2);
            var over := OverLimit(limits, Recent(h, c), c.op.source, c.now);
            && (Done(h.p, c).reply.Limited? <==> over)
            && (Done(h.p, c).reply.Accepted? <==> !over && kept.Leased? && kept.pin == c.op.pin)
            && (Done(h.p, c).reply.Rejected? <==> !over && !(kept.Leased? && kept.pin == c.op.pin))
  {
    RunKeeps(Start(limits, ttl, alwaysOn), calls);
    AttemptExactly(Run(Start(limits, ttl, alwaysOn), calls), c);
  }
}
