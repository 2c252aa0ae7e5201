/** Client enrollment with a PIN: opening and closing the window, policy changes
    and their rollback, and rate limits over fixed failure windows.  The clock is
    an arbitrary sequence of readings and may go backwards. */
module Pairing {
  import opened Base

  datatype Window = Window(started: int, count: nat)

  const NONE := Window(0, 0)

  datatype Limits = Limits(source: nat, total: nat, window: int)

  predicate ValidLimits(l: Limits) { l.source > 0 && l.total > 0 && l.window > 0 }

  datatype Pairing = Pairing(limits: Limits, ttl: int, alwaysOn: bool, open: bool, pin: string, expiresAt: int,
                             lastNow: Option<int>, sources: map<string, Window>, total: Window)

  function Unopened(limits: Limits, ttl: int, alwaysOn: bool): Pairing {
    Pairing(limits, ttl, alwaysOn, false, "", 0, None, map[], NONE)
  }

  /** What the random source yields when a PIN is generated; None when it fails. */
  type Draw = Option<string>

  // -------------------------------------------------------- opening and closing

  function Close(p: Pairing): Pairing { p.(open := false, pin := "", expiresAt := 0) }

  function OpenWith(p: Pairing, now: int, draw: Draw): Pairing {
    if draw.None? then Close(p) else p.(open := true, pin := draw.value, expiresAt := now + p.ttl)
  }

  predicate Backwards(p: Pairing, now: int) { p.lastNow.Some? && now < p.lastNow.value }

  /** observeNowLocked. */
  function Observe(p: Pairing, now: int, draw: Draw): Pairing {
    var q := if !Backwards(p, now) then p
             else
               var r := p.(sources := map[], total := NONE);
               if p.alwaysOn && p.open then OpenWith(r, now, draw) else Close(r);
    q.(lastNow := Some(now))
  }

  /** refreshLocked. */
  function Refresh(p: Pairing, now: int, draw: Draw): Pairing {
    if !p.open || now < p.expiresAt then p
    else if p.alwaysOn then OpenWith(p, now, draw)
    else Close(p)
  }

  // ----------------------------------------------------------- failure windows

  predicate Expired(w: Window, now: int, duration: int) { w.count > 0 && now >= w.started + duration }

  function Increment(w: Window, now: int): Window {
    Window(if w.count == 0 then now else w.started, w.count + 1)
  }

  function Of(sources: map<string, Window>, source: string): Window {
    if source in sources then sources[source] else NONE
  }

  function ExpireTotal(p: Pairing, now: int): Pairing {
    if Expired(p.total, now, p.limits.window) then p.(total := NONE) else p
  }

  function ExpireSource(p: Pairing, source: string, now: int): Pairing {
    if Expired(Of(p.sources, source), now, p.limits.window) then p.(sources := p.sources - {source}) else p
  }

  function Evict(p: Pairing, now: int): Pairing {
    p.(sources := map s | s in p.sources && !Expired(p.sources[s], now, p.limits.window) :: p.sources[s])
  }

  /** sourceCapacityAvailableLocked: may evict before it answers. */
  function MakeRoom(p: Pairing, source: string, now: int): Pairing {
    if source in p.sources || |p.sources| < p.limits.total then p else Evict(p, now)
  }

  predicate HasRoom(p: Pairing, source: string) { source in p.sources || |p.sources| < p.limits.total }

  /** rateLimitedLocked: the state it leaves and its answer. */
  function RateLimited(p: Pairing, source: string, now: int): (Pairing, bool) {
    var q := ExpireSource(ExpireTotal(p, now), source, now);
    if q.total.count >= q.limits.total || Of(q.sources, source).count >= q.limits.source then (q, true)
    else var r := MakeRoom(q, source, now); (r, !HasRoom(r, source))
  }

  function RecordFailure(p: Pairing, source: string, now: int): Pairing {
    var q := ExpireSource(ExpireTotal(p, now), source, now);
    var r := MakeRoom(q.(total := Increment(q.total, now)), source, now);
    if HasRoom(r, source) then r.(sources := r.sources[source := Increment(Of(r.sources, source), now)]) else r
  }

  // ------------------------------------------------------------- operations

  datatype Op =
    | Open
    | Status
    | CloseNow
    | Reconfigure(ttl: int, alwaysOn: bool)
    | RollBack(before: Pairing)
    | Exchange(source: string, pin: string)

  datatype Reply = Accepted | Rejected | Limited | Nothing

  /** The pairing after an operation, its answer, and the PINs it generated. */
  datatype Outcome = Outcome(p: Pairing, reply: Reply, drawn: seq<string>)

  function Drawn(d: Draw): seq<string> { if d.Some? then [d.value] else [] }

  predicate ObserveDraws(p: Pairing, now: int) { Backwards(p, now) && p.alwaysOn && p.open }
  predicate RefreshDraws(p: Pairing, now: int) { p.open && now >= p.expiresAt && p.alwaysOn }

  /** What every operation but CloseNow starts with. */
  function Begin(p: Pairing, now: int, d1: Draw, d2: Draw): (Pairing, seq<string>) {
    var q := Observe(p, now, d1);
    (Refresh(q, now, d2), (if ObserveDraws(p, now) then Drawn(d1) else [])
        + (if RefreshDraws(q, now) then Drawn(d2) else []))
  }

  /** Applying a policy; None when the new PIN could not be generated. */
  function ApplyPolicy(p: Pairing, ttl: int, alwaysOn: bool, now: int, d: Draw): Option<Pairing> {
    if alwaysOn && !p.open && d.None? then None
    else
      var q := p.(ttl := ttl, alwaysOn := alwaysOn);
      Some(if q.open then q.(expiresAt := now + ttl)
           else if alwaysOn then q.(open := true, pin := d.value, expiresAt := now + ttl)
           else q)
  }

  function DoExchange(p: Pairing, source: string, pin: string, now: int, d1: Draw, d2: Draw): Outcome {
    var (q, drawn) := Begin(p, now, d1, d2);
    var (r, limited) := RateLimited(q, source, now);
    if limited then Outcome(r, Limited, drawn)
    else if !r.open || pin != r.pin then Outcome(RecordFailure(r, source, now), Rejected, drawn)
    else Outcome(r, Accepted, drawn)
  }

  function DoReconfigure(p: Pairing, ttl: int, alwaysOn: bool, now: int, d1: Draw, d2: Draw, d3: Draw): Outcome {
    if ttl <= 0 then Outcome(p, Rejected, [])
    else
      var (q, drawn) := Begin(p, now, d1, d2);
      match ApplyPolicy(q, ttl, alwaysOn, now, d3)
      case None => Outcome(q, Rejected, drawn)
      case Some(r) => Outcome(r, Nothing, drawn + if alwaysOn && !q.open then Drawn(d3) else [])
  }

  function DoOpen(p: Pairing, now: int, d1: Draw, d2: Draw): Outcome {
    var q := Observe(p, now, d1);
    Outcome(OpenWith(q, now, d2), Nothing, (if ObserveDraws(p, now) then Drawn(d1) else []) + Drawn(d2))
  }

  /** What the rollback function returned by Reconfigure restores. */
  function Restore(p: Pairing, before: Pairing): Pairing {
    p.(ttl := before.ttl, alwaysOn := before.alwaysOn, open := before.open, pin := before.pin,
        expiresAt := before.expiresAt)
  }

  /** Which operations read the clock. */
  predicate Reads(op: Op) { !op.CloseNow? && !op.RollBack? && (op.Reconfigure? ==> op.ttl > 0) }

  function Do(p: Pairing, op: Op, now: int, d1: Draw, d2: Draw, d3: Draw): Outcome {
    match op
    case Open => DoOpen(p, now, d1, d2)
    case Status => var (q, drawn) := Begin(p, now, d1, d2); Outcome(q, Nothing, drawn)
    case CloseNow => Outcome(Close(p), Nothing, [])
    case Reconfigure(ttl, on) => DoReconfigure(p, ttl, on, now, d1, d2, d3)
    case RollBack(before) => Outcome(Restore(p, before), Nothing, [])
    case Exchange(source, pin) => DoExchange(p, source, pin, now, d1, d2)
  }

  /** One call: the operation, the clock reading, and what the random source yields. */
  datatype Call = Call(op: Op, now: int, d1: Draw, d2: Draw, d3: Draw)

  function Done(p: Pairing, c: Call): Outcome { Do(p, c.op, c.now, c.d1, c.d2, c.d3) }

  // ---------------------------------------- what leaves the PIN alone

  /** Nothing but the failure windows differs. */
  predicate OnlyWindows(p: Pairing, q: Pairing) {
    && q.limits == p.limits && q.ttl == p.ttl && q.alwaysOn == p.alwaysOn
    && q.open == p.open && q.pin == p.pin && q.expiresAt == p.expiresAt && q.lastNow == p.lastNow
  }

  lemma ExpireKeepsPin(p: Pairing, source: string, now: int)
    ensures OnlyWindows(p, ExpireSource(ExpireTotal(p, now), source, now))
  {
    assert OnlyWindows(p, ExpireTotal(p, now));
  }

  lemma RoomKeepsPin(p: Pairing, source: string, now: int)
    ensures OnlyWindows(p, MakeRoom(p, source, now))
  {
    assert OnlyWindows(p, Evict(p, now));
  }

  lemma RateLimitedKeepsPin(p: Pairing, source: string, now: int)
    ensures OnlyWindows(p, RateLimited(p, source, now).0)
  {
    ExpireKeepsPin(p, source, now);
    RoomKeepsPin(ExpireSource(ExpireTotal(p, now), source, now), source, now);
  }

  lemma RecordFailureKeepsPin(p: Pairing, source: string, now: int)
    ensures OnlyWindows(p, RecordFailure(p, source, now))
  {
    ExpireKeepsPin(p, source, now);
    var q := ExpireSource(ExpireTotal(p, now), source, now);
    RoomKeepsPin(q.(total := Increment(q.total, now)), source, now);
  }

  lemma ExchangeOutcome(p: Pairing, source: string, pin: string, now: int, d1: Draw, d2: Draw)
    ensures var o := DoExchange(p, source, pin, now, d1, d2); var (q, drawn) := Begin(p, now, d1, d2);
            OnlyWindows(q, o.p) && o.drawn == drawn && (o.reply.Accepted? ==> q.open && pin == q.pin)
  {
    var (q, drawn) := Begin(p, now, d1, d2);
    RateLimitedKeepsPin(q, source, now);
    RecordFailureKeepsPin(RateLimited(q, source, now).0, source, now);
  }
}
