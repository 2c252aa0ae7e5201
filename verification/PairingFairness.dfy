/** Which exchanges succeed: with the newest PIN, under an honest clock and no Close
    since its generation, before its expiry, and what a policy rollback does to that.

    A policy change and its rollback are separate calls with any others between
    them; the program serializes policy changes, so a rollback always belongs to
    the last one that succeeded. */
module PairingFairness {
  import opened Base
  import opened Pairing

  /** A run: the pairing and its history.  `pins` are all PINs ever generated,
      `issue` how many there were once the pairing's own was, and `mark` how many
      clock readings there were when the last one was; `expiry` is what the last
      opening or policy change still in force set; `shut` says that Close was called
      since the last PIN was generated; `saved` is the run as the last
      policy change found it, until it is rolled back; `tainted` says that a
      rollback did harm that has not been undone. */
  datatype Trace = Trace(p: Pairing, readings: seq<int>, pins: seq<string>, mark: nat, issue: nat, expiry: int,
                         shut: bool, tainted: bool, saved: Option<Trace>)

  /** The history after the opening part of an operation. */
  function Begun(t: Trace, now: int, d1: Draw, d2: Draw): Trace {
    var (q, drawn) := Begin(t.p, now, d1, d2);
    Noted(t, q, t.readings + [now], drawn, if drawn != [] then now + q.ttl else t.expiry)
  }

  /** The history once an operation has drawn some PINs. */
  function Noted(t: Trace, p: Pairing, readings: seq<int>, drawn: seq<string>, expiry: int): Trace {
    Trace(p, readings, t.pins + drawn,
          if drawn != [] then |readings| else t.mark,
          if drawn != [] then |t.pins| + |drawn| else t.issue,
          if p.open then expiry else t.expiry,
          t.shut && drawn == [],
          t.tainted && drawn == [] && p.open, t.saved)
  }

  predicate Changes(c: Call, o: Outcome) { c.op.Reconfigure? && o.reply.Nothing? }

  function Advance(t: Trace, c: Call): (Trace, Reply) {
    var o := Done(t.p, c);
    if c.op.RollBack? && t.saved.Some? then (RolledBack(t, t.saved.value), o.reply)
    else
      var readings := if Reads(c.op) then t.readings + [c.now] else t.readings;
      var t' := Noted(t, o.p, readings, o.drawn, if o.drawn != [] || Changes(c, o) then c.now + o.p.ttl else t.expiry);
      (if Changes(c, o) then t'.(saved := Some(Begun(t, c.now, c.d1, c.d2)))
       else if c.op.CloseNow? then t'.(shut := true)
       else t', o.reply)
  }

  /** The PIN of the saved run is the pairing's own again, and so is its expiry
      unless enrollment was opened since. */
  function RolledBack(t: Trace, b: Trace): Trace {
    Trace(Restore(t.p, b.p), t.readings, t.pins, t.mark, b.issue,
          if |t.pins| == |b.pins| then b.expiry else t.expiry, t.shut, !Harmless(t, b), None)
  }

  /** No reading from position `mark` on went backwards. */
  predicate MonotoneSince(readings: seq<int>, mark: nat) {
    forall i :: mark <= i < |readings| && i > 0 ==> readings[i - 1] <= readings[i]
  }

  /** A rollback does no harm if enrollment was closed before the change, or was not
      tainted and, since the change, no reading went backwards, no PIN was generated
      and Close was not called (an untainted open window was not shut before). */
  predicate Harmless(t: Trace, b: Trace) {
    !b.p.open || (!b.tainted && MonotoneSince(t.readings, |b.readings|) && |t.pins| == |b.pins| && !t.shut)
  }

  /** Every rollback is of the last change that succeeded. */
  predicate Legal(t: Trace, c: Call) { c.op.RollBack? ==> t.saved.Some? && c.op.before == t.saved.value.p }

  predicate LegalRun(t: Trace, calls: seq<Call>)
    decreases |calls|
  {
    calls == [] || (Legal(t, calls[0]) && LegalRun(Advance(t, calls[0]).0, calls[1..]))
  }

  function Run(t: Trace, calls: seq<Call>): Trace
    decreases |calls|
  {
    if calls == [] then t else Run(Advance(t, calls[0]).0, calls[1..])
  }

  function Start(limits: Limits, ttl: int, alwaysOn: bool): Trace {
    Trace(Unopened(limits, ttl, alwaysOn), [], [], 0, 0, 0, false, false, None)
  }

  // ---------------------------------------------------------------- invariant

  /** The open window's PIN is the newest, no reading since its generation went
      backwards, nobody closed it, and it expires when the last opening or standing
      change said. */
  predicate Fair(t: Trace) {
    && t.pins != [] && t.issue == |t.pins| && t.p.pin == t.pins[|t.pins| - 1]
    && MonotoneSince(t.readings, t.mark) && !t.shut && t.p.expiresAt == t.expiry
  }

  /** The PIN is not the newest, or the clock went backwards or Close was called since. */
  predicate Odd(t: Trace) { t.issue != |t.pins| || !MonotoneSince(t.readings, t.mark) || t.shut }

  predicate Clock(t: Trace) {
    && t.p.ttl > 0 && t.mark <= |t.readings| && t.issue <= |t.pins|
    && t.p.lastNow == (if t.readings == [] then None else Some(t.readings[|t.readings| - 1]))
  }

  /** An open window is fair exactly if no rollback has tainted it. */
  predicate Judged(t: Trace) { t.p.open ==> if t.tainted then Odd(t) else Fair(t) }

  predicate Sound(t: Trace) { Clock(t) && Judged(t) }

  /** `b` is an earlier point of the run. */
  predicate Since(b: Trace, t: Trace) {
    && b.readings <= t.readings && b.pins <= t.pins
    && (|t.pins| == |b.pins| ==> t.mark == b.mark && (b.shut ==> t.shut))
    && (t.readings == b.readings && b.p.open ==> |t.pins| == |b.pins|)
  }

  predicate Inv(t: Trace) { Sound(t) && (t.saved.Some? ==> Sound(t.saved.value) && Since(t.saved.value, t)) }

  // ------------------------------------------------------ calls keep it

  lemma ExtendMonotone(readings: seq<int>, mark: nat, now: int)
    requires readings != [] ==> readings[|readings| - 1] <= now
    ensures MonotoneSince(readings + [now], mark) <==> MonotoneSince(readings, mark)
  {
    var r := readings + [now];
    assert forall i :: 0 <= i < |readings| ==> r[i] == readings[i];
    if MonotoneSince(r, mark) {
      forall i | mark <= i < |readings| && i > 0 ensures readings[i - 1] <= readings[i] {
        assert r[i - 1] <= r[i];
      }
    }
  }

  lemma NewMark(readings: seq<int>)
    ensures MonotoneSince(readings, |readings|)
  {}

  /** What the opening part can do to an open window: leave it, replace its PIN, or
      close it. */
  lemma BeginShape(p: Pairing, now: int, d1: Draw, d2: Draw)
    ensures var (q, drawn) := Begin(p, now, d1, d2);
            && q.ttl == p.ttl && q.alwaysOn == p.alwaysOn && q.lastNow == Some(now)
            && (q.open && drawn == [] ==> p.open && !Backwards(p, now) && q.pin == p.pin && q.expiresAt == p.expiresAt)
            && (q.open && drawn != [] ==> q.pin == drawn[|drawn| - 1] && q.expiresAt == now + q.ttl)
            && (q.open ==> now < q.expiresAt || q.ttl <= 0)
  {}

  lemma BeginSound(t: Trace, now: int, d1: Draw, d2: Draw)
    requires Sound(t)
    ensures var b := Begun(t, now, d1, d2); Sound(b) && (b.p.open ==> now < b.p.expiresAt)
  {
    BeginShape(t.p, now, d1, d2);
    var b := Begun(t, now, d1, d2);
    NewMark(b.readings);
    if b.p.open && t.pins == b.pins {
      ExtendMonotone(t.readings, t.mark, now);
    }
  }

  lemma ExchangeKeeps(t: Trace, c: Call)
    requires Sound(t) && c.op.Exchange?
    ensures var (t', reply) := Advance(t, c);
            Sound(t') && (reply.Accepted? ==> t'.p.open && t'.p.pin == c.op.pin && c.now < t'.p.expiresAt)
  {
    BeginSound(t, c.now, c.d1, c.d2);
    ExchangeOutcome(t.p, c.op.source, c.op.pin, c.now, c.d1, c.d2);
  }

  /** A policy change that stays keeps the PIN it finds or generates the one it needs. */
  lemma PolicyShape(q: Pairing, ttl: int, alwaysOn: bool, now: int, d: Draw)
    ensures var r := ApplyPolicy(q, ttl, alwaysOn, now, d);
            r.Some? ==>
              && r.value.ttl == ttl && r.value.lastNow == q.lastNow && (r.value.open <==> q.open || alwaysOn)
              && (r.value.open ==> r.value.expiresAt == now + ttl)
              && (q.open ==> r.value.pin == q.pin)
              && (!q.open && alwaysOn ==> d.Some? && r.value.pin == d.value)
  {}

  lemma FailedChange(t: Trace, c: Call)
    requires Sound(t) && c.op.Reconfigure? && !Changes(c, Done(t.p, c))
    ensures Sound(Advance(t, c).0)
  {
    if c.op.ttl > 0 {
      BeginSound(t, c.now, c.d1, c.d2);
      assert Done(t.p, c).p == Begun(t, c.now, c.d1, c.d2).p;
    }
  }

  /** How the history after a change differs from the one it found. */
  lemma ChangedHistory(t: Trace, c: Call)
    requires c.op.Reconfigure? && Changes(c, Done(t.p, c))
    ensures var b, t' := Begun(t, c.now, c.d1, c.d2), Advance(t, c).0;
            && ApplyPolicy(b.p, c.op.ttl, c.op.alwaysOn, c.now, c.d3) == Some(t'.p)
            && t'.readings == b.readings && (t'.p.open ==> t'.expiry == c.now + t'.p.ttl)
            && (b.p.open ==> t'.pins == b.pins && t'.mark == b.mark && t'.issue == b.issue && t'.tainted == b.tainted)
            && (b.p.open ==> t'.shut == b.shut)
            && (!b.p.open && t'.p.open ==>
                  && t'.pins == b.pins + Drawn(c.d3) && t'.mark == |b.readings| && t'.issue == |t'.pins|
                  && !t'.tainted && !t'.shut)
            && (!t'.p.open ==> t'.pins == b.pins && t'.mark == b.mark && t'.issue == b.issue)
  {}

  lemma ReconfigureKeeps(t: Trace, c: Call)
    requires Sound(t) && c.op.Reconfigure?
    ensures Sound(Advance(t, c).0)
  {
    if Changes(c, Done(t.p, c)) {
      BeginSound(t, c.now, c.d1, c.d2);
      var b, t' := Begun(t, c.now, c.d1, c.d2), Advance(t, c).0;
      NewMark(b.readings);
      PolicyShape(b.p, c.op.ttl, c.op.alwaysOn, c.now, c.d3);
      ChangedHistory(t, c);
      ChangedSound(b, t');
    } else {
      FailedChange(t, c);
    }
  }

  lemma ChangedSound(b: Trace, t': Trace)
    requires Sound(b) && t'.p.ttl > 0 && t'.p.lastNow == b.p.lastNow && t'.readings == b.readings
    requires t'.p.open ==> t'.p.expiresAt == t'.expiry
    requires b.p.open ==> t'.p.open && t'.p.pin == b.p.pin
    requires b.p.open || !t'.p.open ==> t'.pins == b.pins && t'.mark == b.mark && t'.issue == b.issue
    requires b.p.open ==> t'.tainted == b.tainted && t'.shut == b.shut
    requires !b.p.open && t'.p.open ==>
               && t'.pins == b.pins + [t'.p.pin] && t'.mark == |b.readings| && t'.issue == |t'.pins|
               && !t'.tainted && !t'.shut
    ensures Sound(t')
  {
    NewMark(b.readings);
  }

  lemma OpenKeeps(t: Trace, c: Call)
    requires Sound(t) && c.op.Open?
    ensures Sound(Advance(t, c).0)
  {
    NewMark(t.readings + [c.now]);
  }

  lemma StatusKeeps(t: Trace, c: Call)
    requires Sound(t) && (c.op.Status? || c.op.CloseNow?)
    ensures Sound(Advance(t, c).0)
  {
    BeginSound(t, c.now, c.d1, c.d2);
  }

  // ------------------------------------------------------------ the rollback

  /** After a rollback the window is fair if and only if the rollback is harmless
      or leaves it closed. */
  lemma RollBackFairExactly(t: Trace, b: Trace)
    requires Clock(t) && Sound(b) && Since(b, t)
    ensures var t' := RolledBack(t, b);
            Clock(t') && (t'.p.open ==> (Fair(t') <==> Harmless(t, b)) && (Odd(t') <==> !Harmless(t, b)))
  {
    if b.p.open {
      if |t.pins| == |b.pins| {
        assert t.pins == b.pins;
        SplitMonotone(b.readings, t.readings, b.mark);
      }
    }
  }

  lemma SplitMonotone(earlier: seq<int>, readings: seq<int>, mark: nat)
    requires earlier <= readings && mark <= |earlier|
    ensures MonotoneSince(readings, mark) <==> MonotoneSince(earlier, mark) && MonotoneSince(readings, |earlier|)
  {
    if MonotoneSince(readings, mark) {
      forall i | mark <= i < |earlier| && i > 0 ensures earlier[i - 1] <= earlier[i] {
        assert readings[i - 1] <= readings[i];
      }
    }
    if MonotoneSince(earlier, mark) && MonotoneSince(readings, |earlier|) {
      forall i | mark <= i < |readings| && i > 0 ensures readings[i - 1] <= readings[i] {
        if i < |earlier| { assert earlier[i - 1] <= earlier[i]; }
      }
    }
  }

  lemma SoundKept(t: Trace, c: Call)
    requires Inv(t) && Legal(t, c)
    ensures Sound(Advance(t, c).0)
  {
    match c.op
    case Open => OpenKeeps(t, c);
    case Status => StatusKeeps(t, c);
    case CloseNow => StatusKeeps(t, c);
    case Reconfigure(_, _) => ReconfigureKeeps(t, c);
    case RollBack(_) => RollBackFairExactly(t, t.saved.value);
    case Exchange(_, _) => ExchangeKeeps(t, c);
  }

  /** The saved run stays behind by whole readings and whole PINs. */
  lemma SinceKept(t: Trace, b: Trace, c: Call)
    requires Since(b, t) && !c.op.RollBack? && !Changes(c, Done(t.p, c))
    ensures Since(b, Advance(t, c).0)
  {
    var t' := Advance(t, c).0;
    assert t.pins <= t'.pins && t.readings <= t'.readings;
    assert t'.readings == t.readings ==> t'.pins == t.pins;
  }

  lemma ChangeSince(t: Trace, c: Call)
    requires Changes(c, Done(t.p, c))
    ensures Since(Begun(t, c.now, c.d1, c.d2), Advance(t, c).0)
  {
    var b, t' := Begun(t, c.now, c.d1, c.d2), Advance(t, c).0;
    assert t'.readings == b.readings && b.pins <= t'.pins;
  }

  lemma StepKeeps(t: Trace, c: Call)
    requires Inv(t) && Legal(t, c)
    ensures Inv(Advance(t, c).0)
  {
    SoundKept(t, c);
    if Changes(c, Done(t.p, c)) {
      ChangeSince(t, c);
      BeginSound(t, c.now, c.d1, c.d2);
    } else if !c.op.RollBack? && t.saved.Some? {
      SinceKept(t, t.saved.value, c);
    }
  }

  lemma {:induction false} RunKeeps(t: Trace, calls: seq<Call>)
    requires Inv(t) && LegalRun(t, calls)
    ensures Inv(Run(t, calls))
    decreases |calls|
  {
    if calls != [] {
      StepKeeps(t, calls[0]);
      RunKeeps(Advance(t, calls[0]).0, calls[1..]);
    }
  }

  // ------------------------------------------------------------- main results

  /** What a successful exchange at reading `now` should show. */
  predicate AcceptedFairly(t: Trace, pin: string, now: int) {
    && t.readings != [] && now == t.readings[|t.readings| - 1]
    && t.pins != [] && t.issue == |t.pins| && pin == t.pins[|t.pins| - 1]
    && MonotoneSince(t.readings, t.mark) && !t.shut
    && now < t.expiry
  }

  /** Whatever the clock, the random source, callers and rollbacks did: an exchange
      that succeeds presented the most recently generated PIN, with no reading since
      its generation going backwards and no Close since, before the expiry last set,
      if and only if no rollback has tainted the window. */
  lemma AcceptedOnlyFairly(limits: Limits, ttl: int, alwaysOn: bool, calls: seq<Call>, c: Call)
    requires ttl > 0 && LegalRun(Start(limits, ttl, alwaysOn), calls)
    ensures var (t, reply) := Advance(Run(Start(limits, ttl, alwaysOn), calls), c);
            reply.Accepted? ==> c.op.Exchange? && (AcceptedFairly(t, c.op.pin, c.now) <==> !t.tainted)
  {
    RunKeeps(Start(limits, ttl, alwaysOn), calls);
    SuccessIsFair(Run(Start(limits, ttl, alwaysOn), calls), c);
  }

  lemma SuccessIsFair(t: Trace, c: Call)
    requires Inv(t)
    ensures var (t', reply) := Advance(t, c);
            reply.Accepted? ==> c.op.Exchange? && (AcceptedFairly(t', c.op.pin, c.now) <==> !t'.tainted)
  {
    if c.op.Exchange? { ExchangeKeeps(t, c); }
  }

  /** A rollback before any further reading, and before a Close (which reads none). */
  predicate Prompt(t: Trace, c: Call) {
    c.op.RollBack? ==> t.saved.Some? && t.readings == t.saved.value.readings && (t.shut ==> t.saved.value.shut)
  }

  predicate PromptRun(t: Trace, calls: seq<Call>)
    decreases |calls|
  {
    calls == [] || (Prompt(t, calls[0]) && PromptRun(Advance(t, calls[0]).0, calls[1..]))
  }

  predicate Untainted(t: Trace) { !t.tainted && (t.saved.Some? ==> !t.saved.value.tainted) }

  lemma PromptIsHarmless(t: Trace, c: Call)
    requires Inv(t) && Untainted(t) && Legal(t, c) && Prompt(t, c)
    ensures Untainted(Advance(t, c).0)
  {
    if c.op.RollBack? { NewMark(t.readings); }
  }

  lemma {:induction false} PromptRunUntainted(t: Trace, calls: seq<Call>)
    requires Inv(t) && Untainted(t) && LegalRun(t, calls) && PromptRun(t, calls)
    ensures Untainted(Run(t, calls))
    decreases |calls|
  {
    if calls != [] {
      StepKeeps(t, calls[0]);
      PromptIsHarmless(t, calls[0]);
      PromptRunUntainted(Advance(t, calls[0]).0, calls[1..]);
    }
  }

  /** So with rollbacks that come before any further reading or Close every success
      is fair. */
  lemma PromptRollbacksAreFair(limits: Limits, ttl: int, alwaysOn: bool, calls: seq<Call>, c: Call)
    requires ttl > 0 && LegalRun(Start(limits, ttl, alwaysOn), calls) && PromptRun(Start(limits, ttl, alwaysOn), calls)
    ensures var (t, reply) := Advance(Run(Start(limits, ttl, alwaysOn), calls), c);
            reply.Accepted? ==> c.op.Exchange? && AcceptedFairly(t, c.op.pin, c.now)
  {
    AcceptedOnlyFairly(limits, ttl, alwaysOn, calls, c);
    PromptRunUntainted(Start(limits, ttl, alwaysOn), calls);
  }

  // --------------------------------------------------- late rollbacks do harm

  /** Enrollment opened at 0 with a PIN; at 20 the policy is changed. */
  const OPENED := Call(Open, 0, None, Some("123456"), None)
  const CHANGED := Call(Reconfigure(60, false), 20, None, None, None)

  function Opened(limits: Limits): Trace { Advance(Start(limits, 300, false), OPENED).0 }

  function Changed(limits: Limits): Trace { Advance(Opened(limits), CHANGED).0 }

  lemma ChangedShape(limits: Limits)
    requires ValidLimits(limits)
    ensures var p := Pairing(limits, 300, false, true, "123456", 300, Some(20), map[], NONE);
            && LegalRun(Start(limits, 300, false), [OPENED, CHANGED])
            && Changed(limits) == Trace(p.(ttl := 60, expiresAt := 80), [0, 20], ["123456"], 1, 1, 80, false, false,
                                        Some(Trace(p, [0, 20], ["123456"], 1, 1, 300, false, false, None)))
  {
    var p := Pairing(limits, 300, false, true, "123456", 300, Some(0), map[], NONE);
    assert Opened(limits) == Trace(p, [0], ["123456"], 1, 1, 300, false, false, None) by {
      assert [] + ["123456"] == ["123456"] && [] + [0] == [0];
    }
    assert [0] + [20] == [0, 20] && ["123456"] + [] == ["123456"];
    var run := [OPENED, CHANGED];
    assert run[1..] == [CHANGED] && run[1..][1..] == [];
  }

  /** The exchange with the old PIN is accepted. */
  lemma OldPinAccepted(t: Trace, limits: Limits, now: int)
    requires ValidLimits(limits)
    requires t.p == Pairing(limits, 300, false, true, "123456", 300, t.p.lastNow, map[], NONE)
    requires (t.p.lastNow.Some? ==> t.p.lastNow.value <= now) && now < 300
    ensures Advance(t, Call(Exchange("client", "123456"), now, None, None, None)).1.Accepted?
  {
    var q := Begin(t.p, now, None, None).0;
    assert q == t.p.(lastNow := Some(now));
    assert RateLimited(q, "client", now) == (q, false);
  }

  /** A reading that goes backwards closes enrollment; a rollback after it reopens it
      with the old PIN, which is then accepted: a run from the start. */
  lemma LateRollbackRevivesPin(limits: Limits)
    requires ValidLimits(limits)
    ensures var t := Changed(limits);
            && t.saved.Some?
            && var back, undo := Call(Status, 10, None, None, None),
              Call(RollBack(t.saved.value.p), 0, None, None, None);
               var t2 := Advance(t, back).0; var t3 := Advance(t2, undo).0;
               var (t4, reply) := Advance(t3, Call(Exchange("client", "123456"), 11, None, None, None));
               && LegalRun(Start(limits, 300, false), [OPENED, CHANGED]) && LegalRun(t, [back, undo])
               && !t2.p.open && reply.Accepted? && t4.tainted
  {
    ChangedShape(limits);
    var t := Changed(limits);
    var back, undo := Call(Status, 10, None, None, None), Call(RollBack(t.saved.value.p), 0, None, None, None);
    var t2 := Advance(t, back).0;
    assert [0, 20] + [10] == [0, 20, 10];
    assert !MonotoneSince(t2.readings, 2) by { assert t2.readings[2] < t2.readings[1]; }
    var t3 := Advance(t2, undo).0;
    assert t3.tainted && t3.p.open;
    assert LegalRun(t, [back, undo]) by { assert [back, undo][1..] == [undo] && [undo][1..] == []; }
    OldPinAccepted(t3, limits, 11);
    KeepsTaint(t3, "123456", 11);
  }

  /** And a Close between the change and the rollback is undone by it, although no
      reading went backwards. */
  lemma RollbackUndoesClose(limits: Limits)
    requires ValidLimits(limits)
    ensures var t := Changed(limits);
            && t.saved.Some?
            && var close, undo := Call(CloseNow, 0, None, None, None),
              Call(RollBack(t.saved.value.p), 0, None, None, None);
               var t2 := Advance(t, close).0; var t3 := Advance(t2, undo).0;
               var (t4, reply) := Advance(t3, Call(Exchange("client", "123456"), 21, None, None, None));
               && LegalRun(Start(limits, 300, false), [OPENED, CHANGED]) && LegalRun(t, [close, undo])
               && !t2.p.open && reply.Accepted? && t4.tainted
  {
    ChangedShape(limits);
    var t := Changed(limits);
    var close, undo := Call(CloseNow, 0, None, None, None), Call(RollBack(t.saved.value.p), 0, None, None, None);
    var t2 := Advance(t, close).0;
    assert t2.shut && !t2.p.open;
    var t3 := Advance(t2, undo).0;
    assert t3.tainted && t3.p.open;
    assert LegalRun(t, [close, undo]) by { assert [close, undo][1..] == [undo] && [undo][1..] == []; }
    OldPinAccepted(t3, limits, 21);
    KeepsTaint(t3, "123456", 21);
  }

  /** A success generates no PIN, so the taint stays. */
  lemma KeepsTaint(t: Trace, pin: string, now: int)
    requires t.tainted && t.p.open && !t.p.alwaysOn
    requires Advance(t, Call(Exchange("client", pin), now, None, None, None)).1.Accepted?
    ensures Advance(t, Call(Exchange("client", pin), now, None, None, None)).0.tainted
  {
    ExchangeOutcome(t.p, "client", pin, now, None, None);
  }
}
