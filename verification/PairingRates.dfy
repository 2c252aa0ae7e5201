/** The rate limits of enrollment: what the fixed failure windows bound. */
module PairingRates {
  import opened Base
  import opened Pairing

  datatype Failure = Failure(at: int, source: string)

  // --------------------------------------------------------------- rate limits

  /** Counters stay within their limits and the table within its capacity. */
  ghost predicate Bounded(p: Pairing) {
    && p.total.count <= p.limits.total
    && |p.sources| <= p.limits.total
    && forall s :: s in p.sources ==> p.sources[s].count <= p.limits.source
  }

  /** How a failure log relates to the window counting it, as of the last reading:
      the newest entries are the ones counted, entries a whole limit before them
      are a whole window older, and so no 2 * limit + 1 consecutive entries fit
      into one window. */
  ghost predicate Spaced(log: seq<int>, w: Window, last: int, limit: nat, window: int) {
    && w.count <= limit && w.count <= |log|
    && (forall i, j :: 0 <= i <= j < |log| ==> log[i] <= log[j])
    && (forall i :: 0 <= i < |log| ==> log[i] <= last)
    && (w.count > 0 ==> log[|log| - w.count] == w.started)
    && (forall j :: 0 <= j <= |log| - w.count - limit && j < |log| ==>
          log[j] + window <= if w.count > 0 then w.started else last)
    && (forall i :: 0 <= i && i + 2 * limit < |log| ==> log[i] + window <= log[i + 2 * limit])
  }

  lemma SpacedExpired(log: seq<int>, w: Window, now: int, limit: nat, window: int)
    requires Spaced(log, w, now, limit, window) && Expired(w, now, window)
    ensures Spaced(log, NONE, now, limit, window)
  {
    forall j | 0 <= j <= |log| - limit && j < |log| ensures log[j] + window <= now {
      assert log[j] <= log[|log| - w.count];
    }
  }

  lemma SpacedIncrement(log: seq<int>, w: Window, now: int, limit: nat, window: int)
    requires Spaced(log, w, now, limit, window) && w.count < limit
    ensures Spaced(log + [now], Increment(w, now), now, limit, window)
  {
    var log', w' := log + [now], Increment(w, now);
    var i := |log| - 2 * limit;
    if i >= 0 {
      assert i <= |log| - w.count - limit;
      assert log[i] + window <= if w.count > 0 then w.started else now;
      if w.count > 0 { assert log[|log| - w.count] <= now; }
    }
  }

  /** Times of the failures of one source. */
  function SourceLog(failures: seq<Failure>, source: string): seq<int> {
    if failures == [] then []
    else
      var n := |failures| - 1;
      SourceLog(failures[..n], source) + (if failures[n].source == source then [failures[n].at] else [])
  }

  function TotalLog(failures: seq<Failure>): seq<int> {
    seq(|failures|, i requires 0 <= i < |failures| => failures[i].at)
  }

  /** The window of each source and the overall one, all as of reading `now`. */
  ghost predicate WindowsSpaced(p: Pairing, failures: seq<Failure>, now: int) {
    && Spaced(TotalLog(failures), p.total, now, p.limits.total, p.limits.window)
    && forall s {:trigger Of(p.sources, s)} :: SpacedFor(p, failures, now, s)
  }

  ghost predicate SpacedFor(p: Pairing, failures: seq<Failure>, now: int, s: string) {
    Spaced(SourceLog(failures, s), Of(p.sources, s), now, p.limits.source, p.limits.window)
  }

  /** Expiring and evicting only forget windows that are over. */
  ghost predicate Forgets(p: Pairing, q: Pairing, now: int) {
    && q == p.(sources := q.sources, total := q.total)
    && (q.total == p.total || (q.total == NONE && Expired(p.total, now, p.limits.window)))
    && |q.sources| <= |p.sources|
    && forall s {:trigger Of(q.sources, s)} :: ForgetsFor(p, q, now, s)
  }

  ghost predicate ForgetsFor(p: Pairing, q: Pairing, now: int, s: string) {
    && Of(q.sources, s) == (if s in q.sources then Of(p.sources, s) else NONE)
    && (s in q.sources ==> s in p.sources)
    && (s in p.sources && s !in q.sources ==> Expired(p.sources[s], now, p.limits.window))
  }

  lemma SubsetSize<K, V>(a: map<K, V>, b: map<K, V>)
    requires a.Keys <= b.Keys
    ensures |a| <= |b|
  {
    SetSize(a.Keys, b.Keys);
  }

  lemma {:induction false} SetSize<K>(a: set<K>, b: set<K>)
    requires a <= b
    ensures |a| <= |b|
    decreases |a|
  {
    if a != {} {
      var x :| x in a;
      SetSize(a - {x}, b - {x});
    }
  }

  lemma ForgetsTransitive(p: Pairing, q: Pairing, r: Pairing, now: int)
    requires Forgets(p, q, now) && Forgets(q, r, now)
    ensures Forgets(p, r, now)
  {
    forall s ensures ForgetsFor(p, r, now, s) {
      assert Of(q.sources, s) == Of(q.sources, s) && ForgetsFor(p, q, now, s);
      assert Of(r.sources, s) == Of(r.sources, s) && ForgetsFor(q, r, now, s);
    }
  }

  lemma ExpireForgets(p: Pairing, source: string, now: int)
    ensures Forgets(p, ExpireSource(ExpireTotal(p, now), source, now), now)
  {
    var q := ExpireSource(ExpireTotal(p, now), source, now);
    SubsetSize(q.sources, p.sources);
    forall s ensures ForgetsFor(p, q, now, s) {}
  }

  lemma MakeRoomForgets(p: Pairing, source: string, now: int)
    ensures Forgets(p, MakeRoom(p, source, now), now)
  {
    var q := MakeRoom(p, source, now);
    SubsetSize(q.sources, p.sources);
    forall s ensures ForgetsFor(p, q, now, s) {}
  }

  lemma RateLimitedForgets(p: Pairing, source: string, now: int)
    ensures Forgets(p, RateLimited(p, source, now).0, now)
  {
    var q := ExpireSource(ExpireTotal(p, now), source, now);
    ExpireForgets(p, source, now);
    MakeRoomForgets(q, source, now);
    ForgetsTransitive(p, q, MakeRoom(q, source, now), now);
  }

  lemma ForgetsKeeps(p: Pairing, q: Pairing, failures: seq<Failure>, now: int)
    requires Forgets(p, q, now) && WindowsSpaced(p, failures, now)
    ensures WindowsSpaced(q, failures, now)
  {
    if q.total != p.total { SpacedExpired(TotalLog(failures), p.total, now, p.limits.total, p.limits.window); }
    forall s ensures SpacedFor(q, failures, now, s) {
      assert Of(p.sources, s) == Of(p.sources, s) && SpacedFor(p, failures, now, s);
      assert Of(q.sources, s) == Of(q.sources, s) && ForgetsFor(p, q, now, s);
      if s in p.sources && s !in q.sources {
        SpacedExpired(SourceLog(failures, s), p.sources[s], now, p.limits.source, p.limits.window);
      }
    }
  }

  lemma ForgetsBounded(p: Pairing, q: Pairing, now: int)
    requires Forgets(p, q, now) && Bounded(p)
    ensures Bounded(q)
  {
    forall s | s in q.sources ensures q.sources[s].count <= q.limits.source {
      assert Of(q.sources, s) == q.sources[s] && ForgetsFor(p, q, now, s);
    }
  }

  /** A failure recorded right after the limit check counts once in each window. */
  lemma RecordCounts(p: Pairing, source: string, now: int)
    requires !RateLimited(p, source, now).1
    ensures var r := RateLimited(p, source, now).0;
            && RecordFailure(r, source, now) ==
                 r.(total := Increment(r.total, now), sources := r.sources[source := Increment(Of(r.sources, source),
                     now)])
            && r.total.count < r.limits.total && Of(r.sources, source).count < r.limits.source && HasRoom(r, source)
  {
    var q := ExpireSource(ExpireTotal(p, now), source, now);
    var r := MakeRoom(q, source, now);
    assert !Expired(r.total, now, r.limits.window);
    assert !Expired(Of(r.sources, source), now, r.limits.window);
    assert ExpireSource(ExpireTotal(r, now), source, now) == r;
  }

  function Recorded(r: Pairing, source: string, now: int): Pairing {
    r.(total := Increment(r.total, now), sources := r.sources[source := Increment(Of(r.sources, source), now)])
  }

  lemma RecordedKeeps(r: Pairing, failures: seq<Failure>, source: string, now: int)
    requires WindowsSpaced(r, failures, now) && r.total.count < r.limits.total
             && Of(r.sources, source).count < r.limits.source
    ensures WindowsSpaced(Recorded(r, source, now), failures + [Failure(now, source)], now)
  {
    var r', f' := Recorded(r, source, now), failures + [Failure(now, source)];
    SpacedIncrement(TotalLog(failures), r.total, now, r.limits.total, r.limits.window);
    assert TotalLog(f') == TotalLog(failures) + [now];
    assert f'[..|failures|] == failures;
    forall s ensures SpacedFor(r', f', now, s) {
      assert Of(r.sources, s) == Of(r.sources, s) && SpacedFor(r, failures, now, s);
      if s == source {
        SpacedIncrement(SourceLog(failures, s), Of(r.sources, s), now, r.limits.source, r.limits.window);
      } else {
        assert SourceLog(f', s) == SourceLog(failures, s);
      }
    }
  }

  lemma RecordedBounded(r: Pairing, source: string, now: int)
    requires Bounded(r) && HasRoom(r, source) && r.total.count < r.limits.total
             && Of(r.sources, source).count < r.limits.source
    ensures Bounded(Recorded(r, source, now))
  {
    var m := r.sources[source := Increment(Of(r.sources, source), now)];
    assert m.Keys == r.sources.Keys + {source};
    assert |m| == |m.Keys| && |r.sources| == |r.sources.Keys|;
  }

  lemma ObserveBounded(p: Pairing, now: int, d1: Draw, d2: Draw)
    requires Bounded(p)
    ensures Bounded(Begin(p, now, d1, d2).0) && Bounded(DoOpen(p, now, d1, d2).p)
  {}

  lemma ExchangeBounded(p: Pairing, source: string, pin: string, now: int, d1: Draw, d2: Draw)
    requires Bounded(p)
    ensures Bounded(DoExchange(p, source, pin, now, d1, d2).p)
  {
    ObserveBounded(p, now, d1, d2);
    var q := Begin(p, now, d1, d2).0;
    var r := RateLimited(q, source, now).0;
    RateLimitedForgets(q, source, now);
    ForgetsBounded(q, r, now);
    if !RateLimited(q, source, now).1 {
      RecordCounts(q, source, now);
      RecordedBounded(r, source, now);
    }
  }

  lemma ReconfigureBounded(p: Pairing, ttl: int, alwaysOn: bool, now: int, d1: Draw, d2: Draw, d3: Draw)
    requires Bounded(p)
    ensures Bounded(DoReconfigure(p, ttl, alwaysOn, now, d1, d2, d3).p)
  {
    ObserveBounded(p, now, d1, d2);
  }

  /** The counters and the table are bounded after every operation, whatever the
      clock does. */
  lemma StepBounded(p: Pairing, op: Op, now: int, d1: Draw, d2: Draw, d3: Draw)
    requires Bounded(p)
    ensures Bounded(Do(p, op, now, d1, d2, d3).p)
  {
    match op
    case Open => ObserveBounded(p, now, d1, d2);
    case Status => ObserveBounded(p, now, d1, d2);
    case CloseNow =>
    case Reconfigure(ttl, on) => ReconfigureBounded(p, ttl, on, now, d1, d2, d3);
    case RollBack(before) =>
    case Exchange(source, pin) => ExchangeBounded(p, source, pin, now, d1, d2);
  }

  // ---------------------------------------------- runs with an honest clock

  /** A run: the pairing and the failures recorded so far. */
  datatype Trace = Trace(p: Pairing, failures: seq<Failure>)

  function Advance(t: Trace, c: Call): Trace {
    var o := Done(t.p, c);
    Trace(o.p, if o.reply.Rejected? && c.op.Exchange? then t.failures + [Failure(c.now, c.op.source)] else t.failures)
  }

  function Run(t: Trace, calls: seq<Call>): Trace
    decreases |calls|
  {
    if calls == [] then t else Run(Advance(t, calls[0]), calls[1..])
  }

  function Start(limits: Limits, ttl: int, alwaysOn: bool): Trace { Trace(Unopened(limits, ttl, alwaysOn), []) }

  ghost predicate ClockKept(t: Trace, calls: seq<Call>)
    decreases |calls|
  {
    calls == [] || (
      && (Reads(calls[0].op) ==> !Backwards(t.p, calls[0].now))
      && ClockKept(Advance(t, calls[0]), calls[1..]))
  }

  ghost predicate RateInv(t: Trace) {
    && Bounded(t.p)
    && match t.p.lastNow
       case None => t.failures == [] && t.p.sources == map[] && t.p.total == NONE
       case Some(now) => WindowsSpaced(t.p, t.failures, now)
  }

  lemma WindowsLater(p: Pairing, failures: seq<Failure>, last: int, now: int)
    requires WindowsSpaced(p, failures, last) && last <= now
    ensures WindowsSpaced(p, failures, now)
  {
    forall s ensures SpacedFor(p, failures, now, s) {
      assert Of(p.sources, s) == Of(p.sources, s) && SpacedFor(p, failures, last, s);
    }
  }

  lemma NoFailuresSpaced(p: Pairing, now: int)
    requires p.sources == map[] && p.total == NONE
    ensures WindowsSpaced(p, [], now)
  {
    forall s ensures SpacedFor(p, [], now, s) {}
  }

  /** The windows seen by an operation whose reading did not go backwards. */
  lemma BeginSpaced(t: Trace, p: Pairing, now: int)
    requires RateInv(t) && !Backwards(t.p, now)
    requires p.limits == t.p.limits && p.sources == t.p.sources && p.total == t.p.total
    ensures WindowsSpaced(p, t.failures, now)
  {
    if t.p.lastNow.Some? {
      WindowsLater(t.p, t.failures, t.p.lastNow.value, now);
    } else {
      NoFailuresSpaced(t.p, now);
    }
    forall s ensures SpacedFor(p, t.failures, now, s) {
      assert Of(t.p.sources, s) == Of(p.sources, s) && SpacedFor(t.p, t.failures, now, s);
    }
  }

  lemma AttemptSpaced(q: Pairing, failures: seq<Failure>, source: string, now: int)
    requires Bounded(q) && WindowsSpaced(q, failures, now)
    ensures var (r, limited) := RateLimited(q, source, now);
            && WindowsSpaced(r, failures, now)
            && (!limited ==> WindowsSpaced(RecordFailure(r, source, now), failures + [Failure(now, source)], now))
  {
    var (r, limited) := RateLimited(q, source, now);
    RateLimitedForgets(q, source, now);
    ForgetsKeeps(q, r, failures, now);
    if !limited {
      RecordCounts(q, source, now);
      RecordedKeeps(r, failures, source, now);
    }
  }

  lemma BeginWindows(p: Pairing, now: int, d1: Draw, d2: Draw)
    requires !Backwards(p, now)
    ensures var q := Begin(p, now, d1, d2).0; q.limits == p.limits && q.sources == p.sources && q.total == p.total
  {}

  lemma ExchangeSpaced(t: Trace, c: Call)
    requires RateInv(t) && c.op.Exchange? && !Backwards(t.p, c.now)
    ensures var t' := Advance(t, c); WindowsSpaced(t'.p, t'.failures, c.now)
  {
    var q := Begin(t.p, c.now, c.d1, c.d2).0;
    BeginWindows(t.p, c.now, c.d1, c.d2);
    BeginSpaced(t, q, c.now);
    AttemptSpaced(q, t.failures, c.op.source, c.now);
  }

  /** Operations other than an exchange leave the windows alone. */
  lemma WindowsUntouched(t: Trace, c: Call)
    requires !c.op.Exchange? && (Reads(c.op) ==> !Backwards(t.p, c.now))
    ensures var t' := Advance(t, c);
            && t'.failures == t.failures && t'.p.limits == t.p.limits && t'.p.sources == t.p.sources
              && t'.p.total == t.p.total
            && t'.p.lastNow == (if Reads(c.op) then Some(c.now) else t.p.lastNow)
  {}

  lemma BeginReads(p: Pairing, now: int, d1: Draw, d2: Draw)
    ensures var q := Begin(p, now, d1, d2).0; q.lastNow == Some(now) && q.limits == p.limits
  {}

  lemma ExchangeReads(p: Pairing, source: string, pin: string, now: int, d1: Draw, d2: Draw)
    ensures var q := DoExchange(p, source, pin, now, d1, d2).p; q.lastNow == Some(now) && q.limits == p.limits
  {
    BeginReads(p, now, d1, d2);
    ExchangeOutcome(p, source, pin, now, d1, d2);
  }

  lemma RateStep(t: Trace, c: Call)
    requires RateInv(t) && (Reads(c.op) ==> !Backwards(t.p, c.now))
    ensures RateInv(Advance(t, c)) && Advance(t, c).p.limits == t.p.limits
  {
    StepBounded(t.p, c.op, c.now, c.d1, c.d2, c.d3);
    if c.op.Exchange? {
      ExchangeSpaced(t, c);
      ExchangeReads(t.p, c.op.source, c.op.pin, c.now, c.d1, c.d2);
    } else {
      WindowsUntouched(t, c);
      if Reads(c.op) {
        BeginSpaced(t, Advance(t, c).p, c.now);
      } else if t.p.lastNow.Some? {
        BeginSpaced(t, Advance(t, c).p, t.p.lastNow.value);
      }
    }
  }

  lemma {:induction false} RateRun(t: Trace, calls: seq<Call>)
    requires RateInv(t) && ClockKept(t, calls)
    ensures RateInv(Run(t, calls)) && Run(t, calls).p.limits == t.p.limits
    decreases |calls|
  {
    if calls != [] {
      RateStep(t, calls[0]);
      RateRun(Advance(t, calls[0]), calls[1..]);
    }
  }

  ghost function InSpan(log: seq<int>, from: int, window: int): set<int> {
    set i | 0 <= i < |log| && from <= log[i] < from + window
  }

  lemma {:induction false} IntervalSize(s: set<int>, lo: int, n: nat)
    requires forall i :: i in s ==> lo <= i < lo + n
    ensures |s| <= n
    decreases n
  {
    if n == 0 {
      assert forall i :: i !in s;
      assert s == {};
    } else {
      IntervalSize(s - {lo + n - 1}, lo, n - 1);
    }
  }

  /** No span of one window contains more than twice the limit. */
  lemma SpanBound(log: seq<int>, w: Window, last: int, limit: nat, window: int, from: int)
    requires Spaced(log, w, last, limit, window)
    ensures |InSpan(log, from, window)| <= 2 * limit
  {
    var s := InSpan(log, from, window);
    if x :| x in s {
      var m := Lowest(s, x);
      forall i | i in s ensures m <= i < m + 2 * limit {
        var k := if m + 2 * limit < |log| then m + 2 * limit else m;
        assert log[k] - log[m] >= window || k == m;
        assert k <= i ==> log[k] <= log[i];
      }
      IntervalSize(s, m, 2 * limit);
    } else {
      IntervalSize(s, 0, 0);
    }
  }

  lemma {:induction false} Lowest(s: set<int>, x: int) returns (m: int)
    requires x in s
    ensures m in s && forall i :: i in s ==> m <= i
    decreases |s|
  {
    m := x;
    if y :| y in s && y < x {
      m := Lowest(s - {x}, y);
      assert m <= y;
      forall i | i in s ensures m <= i { assert i == x || i in s - {x}; }
    }
  }

  /** While clock readings do not decrease, any span of one rate window contains at
      most twice the overall limit of recorded failures, and at most twice the
      per-source limit from one source. */
  lemma RateLimitsHold(limits: Limits, ttl: int, alwaysOn: bool, calls: seq<Call>, source: string, from: int)
    requires ValidLimits(limits) && ttl > 0 && ClockKept(Start(limits, ttl, alwaysOn), calls)
    ensures var t := Run(Start(limits, ttl, alwaysOn), calls);
            && |InSpan(TotalLog(t.failures), from, limits.window)| <= 2 * limits.total
            && |InSpan(SourceLog(t.failures, source), from, limits.window)| <= 2 * limits.source
            && Bounded(t.p)
  {
    var t := Run(Start(limits, ttl, alwaysOn), calls);
    RateRun(Start(limits, ttl, alwaysOn), calls);
    match t.p.lastNow {
      case None =>
        assert InSpan([], from, limits.window) == {};
      case Some(now) =>
        SpanBound(TotalLog(t.failures), t.p.total, now, limits.total, limits.window, from);
        assert Of(t.p.sources, source) == Of(t.p.sources, source) && SpacedFor(t.p, t.failures, now, source);
        SpanBound(SourceLog(t.failures, source), Of(t.p.sources, source), now, limits.source, limits.window, from);
    }
  }
}
