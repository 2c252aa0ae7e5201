/** The reconnect loop: one goroutine that dials, shakes hands, installs a session
    and waits for it to end, interleaved with callers that arm, disarm, pause,
    resume and stop it.

    Every section under the connector's lock, every check of the stop channel,
    every close of a transport and every wake-up of a select is one event, so all
    interleavings are covered.  The policy channel is its generation number: it is
    closed exactly when the current number has moved on. */
module Connector {
  import opened Base

  datatype Phase = Disconnected | Handshaking | Ready | Bootloader

  datatype Published = Published(phase: Phase, armed: bool)

  /** The fields under the lock, and the connection part of the telemetry store. */
  datatype Shared = Shared(sess: Option<nat>, paused: bool, resume: nat, armed: bool, delay: int, pending: bool,
                           gen: nat, retry: int, published: Option<Published>, connected: bool)

  /** A dialed transport: returned together with an error, closed by us, reported
      disconnected by its Disconnected channel. */
  datatype Transport = Transport(failed: bool, closed: bool, reported: bool)

  /** Where the loop is.  `g` is the policy generation authorizing the dial, `t` a
      transport, `reconnect` the loop's variable of that name. */
  datatype Pc =
    | ReadPolicy(reconnect: bool)
    | AwaitArm(reconnect: bool, g: nat)
    | Sleep(g: nat, pend: bool, delay: int)
    | Claim(reconnect: bool, g: nat, pend: bool)
    | PauseCheck(g: nat)
    | AwaitResume(id: nat)
    | PolicyCheck(g: nat)
    | StopCheck(g: nat)
    | Dialing(g: nat)
    | Dialed(g: nat, dialed: Option<nat>, err: bool)
    | Recheck(g: nat, dialed: Option<nat>, err: bool)
    | Announce(t: nat)
    | PauseRecheck(t: nat)
    | Shaking(t: nat)
    | Joining(t: nat)
    | Shook(t: nat, err: bool)
    | PauseLast(t: nat)
    | StopLast(t: nat)
    | Install(t: nat)
    | MarkConnected(t: nat)
    | AnnounceReady(t: nat)
    | Live(t: nat)
    | Closing(t: nat, next: Pc)
    | CloseCurrent
    | Clearing(whose: Option<nat>, next: Pc)
    | MarkDown(next: Pc)
    | AnnounceDown(next: Pc)
    | Returned

  /** What the loop cannot decide itself: which ready case a select takes, how a
      dial or handshake ends, which mode the device is in. */
  datatype Choice =
    | Go | ByStop | ByWake | ByTimer
    | DialOk | DialErr(withTransport: bool)
    | HandshakeEnds(err: bool) | Mode(ota: bool)

  datatype Event =
    | Arm(delay: int) | Disarm | Pause | FinishPause(k: nat) | Resume | Stop | Drop(i: nat)
    | Loop(c: Choice)

  /** `closers`: sessions that callers of Pause saw and have yet to close. */
  datatype State = State(c: Shared, pc: Pc, wire: seq<Transport>, stop: bool, closers: seq<nat>)

  // ------------------------------------------------- sections under the lock

  function DoArm(c: Shared, delay: int): Shared {
    Republish(c.(armed := true, delay := delay, pending := true, gen := c.gen + 1))
  }

  function DoDisarm(c: Shared): Shared {
    Republish(c.(armed := false, delay := 0, pending := false, gen := c.gen + 1))
  }

  /** The published phase stays, the armed flag follows. */
  function Republish(c: Shared): Shared {
    c.(published := Some(Published(if c.published.Some? then c.published.value.phase else Disconnected, c.armed)))
  }

  function DoPublish(c: Shared, phase: Phase): Shared { c.(published := Some(Published(phase, c.armed))) }

  function DoPause(c: Shared): Shared { if c.paused then c else c.(paused := true, resume := c.resume + 1) }

  function DoResume(c: Shared): Shared { c.(paused := false) }

  predicate Resumed(c: Shared, id: nat) { !(c.paused && c.resume == id) }

  function Delay(c: Shared): int { if c.pending then c.delay else c.retry }

  predicate IsCurrent(c: Shared, g: nat) { g == c.gen && c.armed }

  function DoClaim(c: Shared, pend: bool): Shared { if pend then c.(pending := false) else c }

  function DoClear(c: Shared, whose: Option<nat>): Shared { if c.sess == whose then c.(sess := None) else c }

  // ----------------------------------------------------------------- the loop

  function Closed(wire: seq<Transport>, t: nat): seq<Transport> {
    if t < |wire| then wire[t := wire[t].(closed := true)] else wire
  }

  function CloseIfSome(dialed: Option<nat>, next: Pc): Pc {
    if dialed.Some? then Closing(dialed.value, next) else next
  }

  predicate Waits(pc: Pc) {
    || pc.ReadPolicy? || pc.AwaitArm? || pc.Sleep? || pc.Claim?
    || pc.PauseCheck? || pc.AwaitResume? || pc.PolicyCheck? || pc.StopCheck?
  }

  /** Waiting for leave to dial. */
  function WaitStep(s: State, ch: Choice): State {
    var c := s.c;
    match s.pc
    case ReadPolicy(rc) =>
      s.(pc := if !c.armed then AwaitArm(rc, c.gen)
               else if !rc || Delay(c) <= 0 then Claim(rc, c.gen, rc && c.pending)
               else Sleep(c.gen, c.pending, Delay(c)))
    case AwaitArm(rc, g) =>
      if ch.ByStop? && s.stop then s.(pc := CloseCurrent)
      else if ch.ByWake? && c.gen != g then s.(pc := ReadPolicy(rc))
      else s
    case Sleep(g, pend, _) =>
      if ch.ByStop? && s.stop then s.(pc := CloseCurrent)
      else if ch.ByWake? && c.gen != g then s.(pc := ReadPolicy(true))
      else if ch.ByTimer? then s.(pc := Claim(true, g, pend))
      else s
    case Claim(rc, g, pend) =>
      if IsCurrent(c, g) then s.(c := DoClaim(c, pend), pc := PauseCheck(g)) else s.(pc := ReadPolicy(rc))
    case PauseCheck(g) => s.(pc := if c.paused then AwaitResume(c.resume) else PolicyCheck(g))
    case AwaitResume(id) =>
      if ch.ByStop? && s.stop then s.(pc := CloseCurrent)
      else if ch.ByWake? && Resumed(c, id) then s.(pc := ReadPolicy(false))
      else s
    case PolicyCheck(g) => s.(pc := if IsCurrent(c, g) then StopCheck(g) else ReadPolicy(true))
    case StopCheck(g) => s.(pc := if s.stop then CloseCurrent else Dialing(g))
    case _ => s
  }

  predicate Dials(pc: Pc) { pc.Dialing? || pc.Dialed? || pc.Recheck? || pc.Announce? || pc.PauseRecheck? }

  /** The dial and the checks on what it returned. */
  function DialStep(s: State, ch: Choice): State {
    var c := s.c;
    match s.pc
    case Dialing(g) =>
      if ch.DialOk? then s.(pc := Dialed(g, Some(|s.wire|), false), wire := s.wire + [Transport(false, false, false)])
      else if ch.DialErr? && ch.withTransport then
        s.(pc := Dialed(g, Some(|s.wire|), true), wire := s.wire + [Transport(true, false, false)])
      else if ch.DialErr? then s.(pc := Dialed(g, None, true))
      else s
    case Dialed(g, t, err) =>
      s.(pc := if s.stop then CloseIfSome(t, Clearing(None, Returned)) else Recheck(g, t, err))
    case Recheck(g, t, err) =>
      s.(pc := if !IsCurrent(c, g) then CloseIfSome(t, ReadPolicy(true))
               else if err || t.None? then ReadPolicy(true)
               else Announce(t.value))
    case Announce(t) => s.(c := DoPublish(c, Handshaking), pc := PauseRecheck(t))
    case PauseRecheck(t) => s.(pc := if c.paused then Closing(t, ReadPolicy(false)) else Shaking(t))
    case _ => s
  }

  predicate Serves(pc: Pc) {
    || pc.Shaking? || pc.Joining? || pc.Shook? || pc.PauseLast? || pc.StopLast?
    || pc.Install? || pc.MarkConnected? || pc.AnnounceReady? || pc.Live?
  }

  /** Handshake, installation, and the life of the session. */
  function ServeStep(s: State, ch: Choice): State {
    var c := s.c;
    match s.pc
    case Shaking(t) =>
      if ch.HandshakeEnds? then s.(pc := Shook(t, ch.err))
      else if ch.ByStop? && s.stop then s.(pc := Closing(t, Joining(t)))
      else s
    case Joining(t) => if ch.HandshakeEnds? then s.(pc := Clearing(Some(t), Returned)) else s
    case Shook(t, err) =>
      s.(pc := if s.stop then Closing(t, Clearing(Some(t), Returned))
               else if err then Closing(t, ReadPolicy(true))
               else PauseLast(t))
    case PauseLast(t) => s.(pc := if c.paused then Closing(t, ReadPolicy(false)) else StopLast(t))
    case StopLast(t) => s.(pc := if s.stop then Closing(t, Clearing(Some(t), Returned)) else Install(t))
    case Install(t) => s.(c := c.(sess := Some(t)), pc := MarkConnected(t))
    case MarkConnected(t) => s.(c := c.(connected := true), pc := AnnounceReady(t))
    case AnnounceReady(t) => s.(c := DoPublish(c, if ch.Mode? && ch.ota then Bootloader else Ready), pc := Live(t))
    case Live(t) =>
      if ch.ByStop? && s.stop then s.(pc := Closing(t, Clearing(Some(t), Returned)))
      else if ch.ByWake? && t < |s.wire| && s.wire[t].reported then s.(pc := Clearing(Some(t), ReadPolicy(true)))
      else s
    case _ => s
  }

  /** Giving a transport up. */
  function LeaveStep(s: State, ch: Choice): State {
    var c := s.c;
    match s.pc
    case Closing(t, next) => s.(wire := Closed(s.wire, t), pc := next)
    case CloseCurrent => s.(pc := CloseIfSome(c.sess, Clearing(c.sess, Returned)))
    case Clearing(whose, next) => s.(c := DoClear(c, whose), pc := MarkDown(next))
    case MarkDown(next) => s.(c := c.(connected := false), pc := AnnounceDown(next))
    case AnnounceDown(next) => s.(c := DoPublish(c, Disconnected), pc := next)
    case _ => s
  }

  function LoopStep(s: State, ch: Choice): State {
    if Waits(s.pc) then WaitStep(s, ch)
    else if Dials(s.pc) then DialStep(s, ch)
    else if Serves(s.pc) then ServeStep(s, ch)
    else LeaveStep(s, ch)
  }

  function Step(s: State, ev: Event): State {
    match ev
    case Arm(d) => s.(c := DoArm(s.c, d))
    case Disarm => s.(c := DoDisarm(s.c))
    case Pause => s.(c := DoPause(s.c), closers := if s.c.sess.Some? then s.closers + [s.c.sess.value] else s.closers)
    case FinishPause(k) => if k < |s.closers| then s.(wire := Closed(s.wire, s.closers[k])) else s
    case Resume => s.(c := DoResume(s.c))
    case Stop => s.(stop := true)
    case Drop(i) => if i < |s.wire| then s.(wire := s.wire[i := s.wire[i].(reported := true)]) else s
    case Loop(ch) => LoopStep(s, ch)
  }

  // ------------------------------------------------------------------ history

  /** A run: whether a policy call came since the last claim; for each transport,
      whether one came between the claim and the return of its dial; the transports
      that reached the handshake; the delay of the last ArmReconnect while no
      reconnect attempt has used it. */
  datatype Run = Run(s: State, touched: bool, calm: seq<bool>, shaken: set<nat>, owed: Option<int>)

  function Advance(r: Run, ev: Event): Run {
    var s' := Step(r.s, ev);
    Run(s',
        if ev.Arm? || ev.Disarm? then true else r.touched && !(r.s.pc.Claim? && s'.pc.PauseCheck?),
        if |s'.wire| > |r.s.wire| then r.calm + [!r.touched] else r.calm,
        if s'.pc.Shaking? then r.shaken + {s'.pc.t} else r.shaken,
        match ev
        case Arm(d) => Some(d)
        case Disarm => None
        case _ => if r.s.pc.Claim? && r.s.pc.reconnect && s'.pc.PauseCheck? then None else r.owed)
  }

  function Initial(retry: int): Run {
    Run(State(Shared(None, false, 0, true, 0, false, 0, retry, None, false), ReadPolicy(false), [], false, []), false,
        [], {}, None)
  }

  // ---------------------------------------------------------------- invariant

  predicate Settled(t: Transport) { t.closed || t.reported }

  predicate Open(t: Transport) { !t.failed && !Settled(t) }

  /** The transport the loop must still settle. */
  function Held(pc: Pc): Option<nat> {
    match pc
    case Dialed(_, t, err) => if err then None else t
    case Recheck(_, t, err) => if err then None else t
    case Announce(t) => Some(t)
    case PauseRecheck(t) => Some(t)
    case Shaking(t) => Some(t)
    case Shook(t, _) => Some(t)
    case PauseLast(t) => Some(t)
    case StopLast(t) => Some(t)
    case Install(t) => Some(t)
    case MarkConnected(t) => Some(t)
    case AnnounceReady(t) => Some(t)
    case Live(t) => Some(t)
    case Closing(t, _) => Some(t)
    case _ => None
  }

  predicate AllSettled(wire: seq<Transport>, but: Option<nat>) {
    forall i: nat :: i < |wire| && Open(wire[i]) ==> but == Some(i)
  }

  /** Control returns to the top of the loop or leaves it. */
  predicate Exit(pc: Pc) { pc.ReadPolicy? || pc.Returned? }

  predicate Shaped(pc: Pc) {
    && (pc.Dialed? || pc.Recheck? ==> !pc.err ==> pc.dialed.Some?)
    && (pc.Closing? ==> pc.next.ReadPolicy? || pc.next.Joining? || (pc.next.Clearing? && pc.next.next.Returned?))
    && (pc.Clearing? || pc.MarkDown? || pc.AnnounceDown? ==> Exit(pc.next))
  }

  /** The only places where a session may be installed, and whose it then is. */
  predicate SessionHere(pc: Pc, sess: Option<nat>) {
    match pc
    case MarkConnected(t) => sess == Some(t)
    case AnnounceReady(t) => sess == Some(t)
    case Live(t) => sess == Some(t)
    case Closing(t, next) => sess.Some? ==> next.Clearing? && next.whose == sess == Some(t)
    case Clearing(whose, _) => sess.Some? ==> whose == sess
    case _ => sess.None?
  }

  predicate ConnectedHere(pc: Pc) {
    pc.AnnounceReady? || pc.Live? || (pc.Closing? && pc.next.Clearing?) || pc.Clearing? || pc.MarkDown?
  }

  /** What the store shows: the armed flag always, the phase where it is settled. */
  predicate Shown(s: State) {
    && (s.c.published.Some? ==> s.c.published.value.armed == s.c.armed)
    && (s.c.connected ==> ConnectedHere(s.pc))
    && (s.pc.AnnounceReady? || s.pc.Live? ==> s.c.connected)
    && (s.pc.Live? ==> s.c.published.Some? && s.c.published.value.phase in {Ready, Bootloader})
    && (s.pc.Returned? ==> s.c.published.Some? && s.c.published.value.phase == Disconnected)
  }

  /** The generation authorizing the attempt under way, if there is one. */
  function Authority(pc: Pc): Option<nat> {
    match pc
    case PauseCheck(g) => Some(g)
    case PolicyCheck(g) => Some(g)
    case StopCheck(g) => Some(g)
    case Dialing(g) => Some(g)
    case Dialed(g, _, _) => Some(g)
    case Recheck(g, _, _) => Some(g)
    case _ => None
  }

  /** While the authorizing generation is current no policy call came since the
      claim; past the check on the dial's return none came before that return. */
  predicate Cleared(pc: Pc, gen: nat, touched: bool, calm: seq<bool>) {
    && (Authority(pc).Some? ==> Authority(pc).value <= gen)
    && (Authority(pc) == Some(gen) ==> !touched)
    && ((pc.Dialed? || pc.Recheck?) && pc.dialed.Some? ==>
          pc.dialed.value < |calm| && (touched || calm[pc.dialed.value]))
    && (pc.Announce? || pc.PauseRecheck? || pc.Shaking? ==> pc.t < |calm| && calm[pc.t])
  }

  predicate AllCalm(shaken: set<nat>, calm: seq<bool>) { forall i :: i in shaken ==> i < |calm| && calm[i] }

  predicate Authorized(r: Run) {
    |r.calm| == |r.s.wire| && Cleared(r.s.pc, r.s.c.gen, r.touched, r.calm) && AllCalm(r.shaken, r.calm)
  }

  predicate InRange(s: State) {
    && (Held(s.pc).Some? ==> Held(s.pc).value < |s.wire|)
    && ((s.pc.Dialed? || s.pc.Recheck?) && s.pc.dialed.Some? ==> s.pc.dialed.value < |s.wire|)
  }

  lemma ClosedSettles(wire: seq<Transport>, t: nat, but: Option<nat>)
    requires AllSettled(wire, but)
    ensures |Closed(wire, t)| == |wire|
    ensures AllSettled(Closed(wire, t), but)
    ensures but == Some(t) ==> AllSettled(Closed(wire, t), None)
  {}

  /** What the invariant says of a state alone. */
  predicate Safe(s: State) {
    Shaped(s.pc) && InRange(s) && AllSettled(s.wire, Held(s.pc)) && SessionHere(s.pc, s.c.sess)
  }

  /** The delay is pending exactly while it is owed, and what the loop read of it
      still holds under the generation it was read under. */
  predicate Owing(pc: Pc, c: Shared, owed: Option<int>) {
    && c.pending == owed.Some? && (owed.Some? ==> c.delay == owed.value)
    && (pc.Sleep? && pc.g == c.gen ==> pc.pend == c.pending && pc.delay == Delay(c) > 0)
    && (pc.Claim? && pc.g == c.gen ==> pc.pend == (pc.reconnect && c.pending))
    && (pc.Sleep? || pc.Claim? ==> pc.g <= c.gen)
  }

  predicate Inv(r: Run) { Safe(r.s) && Shown(r.s) && Authorized(r) && Owing(r.s.pc, r.s.c, r.owed) }

  lemma WaitKeeps(s: State, ch: Choice)
    requires Safe(s) && Waits(s.pc)
    ensures Safe(WaitStep(s, ch))
  {}

  lemma DialKeeps(s: State, ch: Choice)
    requires Safe(s) && Dials(s.pc)
    ensures Safe(DialStep(s, ch))
  {
    if s.pc.Dialing? { DialingKeeps(s, ch); } else { assert DialStep(s, ch).wire == s.wire; }
  }

  lemma DialingKeeps(s: State, ch: Choice)
    requires Safe(s) && s.pc.Dialing?
    ensures Safe(DialStep(s, ch))
  {}

  lemma ServeKeeps(s: State, ch: Choice)
    requires Safe(s) && Serves(s.pc)
    ensures Safe(ServeStep(s, ch))
  {
    if s.pc.Shaking? || s.pc.Joining? || s.pc.Shook? { ShakingKeeps(s, ch); } else { SessionKeeps(s, ch); }
  }

  lemma ShakingKeeps(s: State, ch: Choice)
    requires Safe(s) && (s.pc.Shaking? || s.pc.Joining? || s.pc.Shook?)
    ensures Safe(ServeStep(s, ch))
  {}

  lemma SessionKeeps(s: State, ch: Choice)
    requires Safe(s) && Serves(s.pc) && !s.pc.Shaking? && !s.pc.Joining? && !s.pc.Shook?
    ensures Safe(ServeStep(s, ch))
  {}

  predicate Leaves(pc: Pc) { !Waits(pc) && !Dials(pc) && !Serves(pc) }

  lemma LeaveKeeps(s: State, ch: Choice)
    requires Safe(s) && Leaves(s.pc)
    ensures Safe(LeaveStep(s, ch))
  {
    if s.pc.Closing? { ClosedSettles(s.wire, s.pc.t, Held(s.pc)); }
  }

  lemma WaitShows(s: State, ch: Choice)
    requires Waits(s.pc) && Shown(s)
    ensures Shown(WaitStep(s, ch))
  {}

  lemma DialShows(s: State, ch: Choice)
    requires Dials(s.pc) && Shown(s)
    ensures Shown(DialStep(s, ch))
  {}

  lemma ServeShows(s: State, ch: Choice)
    requires Serves(s.pc) && Shown(s)
    ensures Shown(ServeStep(s, ch))
  {}

  lemma LeaveShows(s: State, ch: Choice)
    requires Leaves(s.pc) && Shaped(s.pc) && SessionHere(s.pc, s.c.sess) && Shown(s)
    ensures Shown(LeaveStep(s, ch))
  {}

  lemma WaitAuthorized(r: Run, ch: Choice)
    requires Waits(r.s.pc) && Authorized(r)
    ensures Authorized(Advance(r, Loop(ch)))
  {
    var s' := WaitStep(r.s, ch);
    assert s'.wire == r.s.wire && s'.c.gen == r.s.c.gen && !s'.pc.Shaking?;
    assert Cleared(s'.pc, s'.c.gen, r.touched && !(r.s.pc.Claim? && s'.pc.PauseCheck?), r.calm);
  }

  lemma DialReturns(r: Run, ch: Choice)
    requires r.s.pc.Dialing? && Authorized(r)
    ensures Authorized(Advance(r, Loop(ch)))
  {}

  lemma DialClears(s: State, ch: Choice, touched: bool, calm: seq<bool>)
    requires Dials(s.pc) && !s.pc.Dialing? && Cleared(s.pc, s.c.gen, touched, calm)
    ensures var s' := DialStep(s, ch);
            s'.wire == s.wire && s'.c.gen == s.c.gen && Cleared(s'.pc, s'.c.gen, touched, calm)
  {}

  lemma ServeClears(s: State, ch: Choice, touched: bool, calm: seq<bool>)
    requires Serves(s.pc) && Cleared(s.pc, s.c.gen, touched, calm)
    ensures var s' := ServeStep(s, ch);
            s'.wire == s.wire && s'.c.gen == s.c.gen && Cleared(s'.pc, s'.c.gen, touched, calm)
  {}

  lemma LeaveClears(s: State, ch: Choice, touched: bool, calm: seq<bool>)
    requires Leaves(s.pc) && Shaped(s.pc)
    ensures var s' := LeaveStep(s, ch);
            |s'.wire| == |s.wire| && s'.c.gen == s.c.gen && Cleared(s'.pc, s'.c.gen, touched, calm)
  {}

  lemma RestAuthorized(r: Run, ch: Choice)
    requires Shaped(r.s.pc) && Authorized(r) && !Waits(r.s.pc) && !r.s.pc.Dialing?
    ensures Authorized(Advance(r, Loop(ch)))
  {
    if Dials(r.s.pc) { DialClears(r.s, ch, r.touched, r.calm); }
    else if Serves(r.s.pc) { ServeClears(r.s, ch, r.touched, r.calm); }
    else { LeaveClears(r.s, ch, r.touched, r.calm); }
    HistoryKept(r, LoopStep(r.s, ch), Loop(ch));
  }

  lemma HistoryKept(r: Run, s': State, ev: Event)
    requires Authorized(r) && s' == Step(r.s, ev) && ev.Loop? && !r.s.pc.Claim?
    requires |s'.wire| == |r.s.wire| && Cleared(s'.pc, s'.c.gen, r.touched, r.calm)
    ensures Authorized(Advance(r, ev))
  {}

  lemma WaitOwes(r: Run, ch: Choice)
    requires Waits(r.s.pc) && Owing(r.s.pc, r.s.c, r.owed)
    ensures var r' := Advance(r, Loop(ch)); Owing(r'.s.pc, r'.s.c, r'.owed)
  {}

  /** Only the part of the loop that waits for leave to dial deals with the delay. */
  predicate DelayUntouched(s: State, s': State) {
    s'.c.pending == s.c.pending && s'.c.delay == s.c.delay && !s'.pc.Sleep? && !s'.pc.Claim?
  }

  lemma DialOwes(s: State, ch: Choice)
    requires Dials(s.pc)
    ensures DelayUntouched(s, DialStep(s, ch))
  {}

  lemma ServeOwes(s: State, ch: Choice)
    requires Serves(s.pc)
    ensures DelayUntouched(s, ServeStep(s, ch))
  {}

  lemma LeaveOwes(s: State, ch: Choice)
    requires Leaves(s.pc) && Shaped(s.pc)
    ensures DelayUntouched(s, LeaveStep(s, ch))
  {}

  lemma LoopOwes(r: Run, ch: Choice)
    requires Shaped(r.s.pc) && Owing(r.s.pc, r.s.c, r.owed)
    ensures var r' := Advance(r, Loop(ch)); Owing(r'.s.pc, r'.s.c, r'.owed)
  {
    if Waits(r.s.pc) { WaitOwes(r, ch); }
    else if Dials(r.s.pc) { DialOwes(r.s, ch); }
    else if Serves(r.s.pc) { ServeOwes(r.s, ch); }
    else { LeaveOwes(r.s, ch); }
  }

  lemma LoopKeeps(r: Run, ch: Choice)
    requires Inv(r)
    ensures Inv(Advance(r, Loop(ch)))
  {
    LoopOwes(r, ch);
    if Waits(r.s.pc) { WaitKeeps(r.s, ch); WaitShows(r.s, ch); WaitAuthorized(r, ch); }
    else if Dials(r.s.pc) { DialKeeps(r.s, ch); DialShows(r.s, ch);
        if r.s.pc.Dialing? { DialReturns(r, ch); } else { RestAuthorized(r, ch); } }
    else if Serves(r.s.pc) { ServeKeeps(r.s, ch); ServeShows(r.s, ch); RestAuthorized(r, ch); }
    else { LeaveKeeps(r.s, ch); LeaveShows(r.s, ch); RestAuthorized(r, ch); }
  }

  lemma OthersSafe(s: State, ev: Event)
    requires Safe(s) && !ev.Loop?
    ensures Safe(Step(s, ev))
  {
    if ev.FinishPause? && ev.k < |s.closers| { ClosedSettles(s.wire, s.closers[ev.k], Held(s.pc)); }
  }

  lemma OthersShow(s: State, ev: Event)
    requires Shown(s) && !ev.Loop?
    ensures Shown(Step(s, ev))
  {}

  lemma OthersAuthorized(r: Run, ev: Event)
    requires Authorized(r) && Owing(r.s.pc, r.s.c, r.owed) && !ev.Loop?
    ensures var r' := Advance(r, ev); Authorized(r') && Owing(r'.s.pc, r'.s.c, r'.owed)
  {}

  lemma OthersKeep(r: Run, ev: Event)
    requires Inv(r) && !ev.Loop?
    ensures Inv(Advance(r, ev))
  {
    OthersSafe(r.s, ev);
    OthersShow(r.s, ev);
    OthersAuthorized(r, ev);
  }

  lemma StepKeeps(r: Run, ev: Event)
    requires Inv(r)
    ensures Inv(Advance(r, ev))
  {
    if ev.Loop? { LoopKeeps(r, ev.c); } else { OthersKeep(r, ev); }
  }

  function Play(r: Run, evs: seq<Event>): Run
    decreases |evs|
  {
    if evs == [] then r else Play(Advance(r, evs[0]), evs[1..])
  }

  lemma {:induction false} PlayKeeps(r: Run, evs: seq<Event>)
    requires Inv(r)
    ensures Inv(Play(r, evs))
    decreases |evs|
  {
    if evs != [] {
      StepKeeps(r, evs[0]);
      PlayKeeps(Advance(r, evs[0]), evs[1..]);
    }
  }

  // ------------------------------------------------------------- main results

  /** In every run at most one transport dialed without error is open; none is when
      the next dial begins or when the loop has returned; and the installed session
      is the only one that may be open. */
  lemma OneTransport(retry: int, evs: seq<Event>)
    ensures var s := Play(Initial(retry), evs).s;
            && (forall i, j :: 0 <= i < |s.wire| && 0 <= j < |s.wire| && Open(s.wire[i]) && Open(s.wire[j]) ==> i == j)
            && (s.pc.StopCheck? || s.pc.Dialing? || s.pc.Returned? ==>
                  s.c.sess.None? && forall i :: 0 <= i < |s.wire| ==> !Open(s.wire[i]))
            && (s.c.sess.Some? ==> forall i: nat :: i < |s.wire| && Open(s.wire[i]) ==> s.c.sess == Some(i))
  {
    PlayKeeps(Initial(retry), evs);
  }

  /** A transport reaches the handshake only if no caller armed or disarmed between
      the claim and the return of its dial. */
  lemma HandshakeAuthorized(retry: int, evs: seq<Event>, t: nat)
    ensures var r := Play(Initial(retry), evs);
            t in r.shaken ==> t < |r.calm| == |r.s.wire| && r.calm[t]
  {
    PlayKeeps(Initial(retry), evs);
  }

  /** The store's armed flag is the policy's in every state; it says "connected" and
      a ready phase while the loop waits on a session, and neither once it returned. */
  lemma StoreAgrees(retry: int, evs: seq<Event>)
    ensures var s := Play(Initial(retry), evs).s;
            && (s.c.published.Some? ==> s.c.published.value.armed == s.c.armed)
            && (s.pc.Live? ==>
                  && s.c.connected && s.c.sess == Some(s.pc.t)
                  && s.c.published.Some? && s.c.published.value.phase in {Ready, Bootloader})
            && (s.pc.Returned? ==> !s.c.connected && s.c.published == Some(Published(Disconnected, s.c.armed)))
  {
    PlayKeeps(Initial(retry), evs);
  }

  /** The delay of ArmReconnect applies to the next reconnect attempt and to no
      later one: under the current policy the loop sleeps exactly the delay still
      owed, or else the retry delay, and an attempt that claims pays it off. */
  lemma DelayHonoured(retry: int, evs: seq<Event>, ch: Choice)
    ensures var r := Play(Initial(retry), evs); var r' := Advance(r, Loop(ch));
            && (r.s.pc.Sleep? && r.s.pc.g == r.s.c.gen ==>
                  r.s.pc.delay == if r.owed.Some? then r.owed.value else r.s.c.retry)
            && (r.s.pc.Claim? && r.s.pc.reconnect && r'.s.pc.PauseCheck? ==> r'.owed.None? && !r'.s.c.pending)
            && (r.s.pc.Claim? && !r.s.pc.reconnect ==> r'.owed == r.owed && r'.s.c.pending == r.s.c.pending)
  {
    PlayKeeps(Initial(retry), evs);
    LoopKeeps(Play(Initial(retry), evs), ch);
  }

  /** A stopped connector never begins a dial. */
  lemma {:induction false} NoDialAfterStop(r: Run, evs: seq<Event>)
    requires Inv(r) && r.s.stop && !r.s.pc.Dialing?
    ensures !Play(r, evs).s.pc.Dialing?
    decreases |evs|
  {
    if evs != [] {
      StepKeeps(r, evs[0]);
      StopBars(r.s, evs[0]);
      NoDialAfterStop(Advance(r, evs[0]), evs[1..]);
    }
  }

  lemma StopBars(s: State, ev: Event)
    requires Shaped(s.pc) && s.stop && !s.pc.Dialing?
    ensures Step(s, ev).stop && !Step(s, ev).pc.Dialing?
  {}

  // ---------------------------------------------------------------- returning

  /** A bound on the loop's own steps to its return once stopped, as long as nobody
      arms, disarms or resumes. */
  function Rank(s: State): nat
    requires Shaped(s.pc)
  {
    match s.pc
    case Returned => 0
    case AnnounceDown(next) => if next.Returned? then 1 else 11
    case MarkDown(next) => if next.Returned? then 2 else 12
    case Clearing(_, next) => if next.Returned? then 3 else 13
    case Closing(_, next) => if next.Clearing? then 4 else if next.Joining? then 5 else 11
    case CloseCurrent => 4
    case StopCheck(_) => 5
    case AwaitArm(_, g) => if g == s.c.gen then 5 else 11
    case AwaitResume(id) => if !Resumed(s.c, id) then 5 else 11
    case PolicyCheck(g) => if IsCurrent(s.c, g) then 6 else 11
    case PauseCheck(g) => if IsCurrent(s.c, g) then 7 else 12
    case Claim(_, g, _) => if IsCurrent(s.c, g) then 8 else 11
    case Sleep(g, _, _) => if IsCurrent(s.c, g) then 9 else 12
    case ReadPolicy(_) => 10
    case Dialed(_, _, _) => 5
    case Dialing(_) => 6
    case Recheck(_, _, _) => 14
    case Announce(_) => 13
    case PauseRecheck(_) => 12
    case Shaking(_) => 6
    case Joining(_) => 4
    case Shook(_, _) => 5
    case PauseLast(_) => 12
    case StopLast(_) => 5
    case Install(_) => 17
    case MarkConnected(_) => 16
    case AnnounceReady(_) => 15
    case Live(_) => 14
  }

  /** What the bound does not survive: a new policy, or the end of a pause. */
  predicate Interrupts(ev: Event) { ev.Arm? || ev.Disarm? || ev.Resume? }

  lemma LoopRanks(s: State, ch: Choice)
    requires s.stop && Safe(s)
    ensures Shaped(LoopStep(s, ch).pc)
    ensures LoopStep(s, ch) != s ==> Rank(LoopStep(s, ch)) < Rank(s)
  {
    if Waits(s.pc) { WaitRanks(s, ch); }
    else if Dials(s.pc) { DialRanks(s, ch); }
    else if Serves(s.pc) { ServeRanks(s, ch); }
    else { LeaveRanks(s, ch); }
  }

  lemma WaitRanks(s: State, ch: Choice)
    requires s.stop && Safe(s) && Waits(s.pc)
    ensures var s' := WaitStep(s, ch); Shaped(s'.pc) && (s' != s ==> Rank(s') < Rank(s))
  {}

  lemma DialRanks(s: State, ch: Choice)
    requires s.stop && Safe(s) && Dials(s.pc)
    ensures var s' := DialStep(s, ch); Shaped(s'.pc) && (s' != s ==> Rank(s') < Rank(s))
  {}

  lemma ServeRanks(s: State, ch: Choice)
    requires s.stop && Safe(s) && Serves(s.pc)
    ensures var s' := ServeStep(s, ch); Shaped(s'.pc) && (s' != s ==> Rank(s') < Rank(s))
  {}

  lemma LeaveRanks(s: State, ch: Choice)
    requires s.stop && Safe(s) && Leaves(s.pc)
    ensures var s' := LeaveStep(s, ch); Shaped(s'.pc) && (s' != s ==> Rank(s') < Rank(s))
  {}

  /** Stopped, the loop waits for nothing but the end of a dial, or of a handshake
      whose transport it has closed: these get on whichever way they end, and
      everywhere else the stop channel is enough. */
  lemma LoopEnabled(s: State, ch: Choice)
    requires s.stop && !s.pc.Returned?
    ensures !s.pc.Dialing? && !s.pc.Joining? ==> LoopStep(s, ByStop).pc != s.pc
    ensures s.pc.Dialing? && (ch.DialOk? || ch.DialErr?) ==> LoopStep(s, ch).pc != s.pc
    ensures s.pc.Joining? && ch.HandshakeEnds? ==> LoopStep(s, ch).pc != s.pc
  {}

  /** Where the loop stays, stopped and with nothing from outside to wait for, is
      exactly where it has returned, or a dial or handshake has still to end. */
  lemma RestsExactly(s: State)
    requires s.stop
    ensures (forall ch: Choice :: !ch.DialOk? && !ch.DialErr? && !ch.HandshakeEnds? ==> LoopStep(s, ch) == s) <==>
            s.pc.Returned? || s.pc.Dialing? || s.pc.Joining?
  {
    if !s.pc.Returned? && !s.pc.Dialing? && !s.pc.Joining? {
      LoopEnabled(s, ByStop);
      assert LoopStep(s, ByStop) != s;
    }
  }

  lemma EnvironmentRanks(s: State, ev: Event)
    requires Shaped(s.pc) && !ev.Loop? && !Interrupts(ev)
    ensures Shaped(Step(s, ev).pc) && Rank(Step(s, ev)) <= Rank(s)
  {}

  lemma StepRanks(r: Run, ev: Event)
    requires Inv(r) && r.s.stop && !Interrupts(ev)
    ensures var r' := Advance(r, ev);
            && Inv(r') && r'.s.stop && Rank(r'.s) <= Rank(r.s)
            && (ev.Loop? && r'.s != r.s ==> Rank(r'.s) < Rank(r.s))
  {
    StepKeeps(r, ev);
    if ev.Loop? { LoopRanks(r.s, ev.c); } else { EnvironmentRanks(r.s, ev); }
  }

  /** A run without new policies or resumes in which the loop, whenever it is its
      turn, gets on unless it has returned. */
  ghost predicate Diligent(r: Run, evs: seq<Event>)
    decreases |evs|
  {
    evs == [] || (
      && !Interrupts(evs[0])
      && (evs[0].Loop? && !r.s.pc.Returned? ==> Step(r.s, evs[0]) != r.s)
      && Diligent(Advance(r, evs[0]), evs[1..]))
  }

  /** How often it was the loop's turn. */
  function Turns(evs: seq<Event>): nat {
    if evs == [] then 0 else (if evs[0].Loop? then 1 else 0) + Turns(evs[1..])
  }

  lemma {:induction false} ReturnedStays(r: Run, evs: seq<Event>)
    requires r.s.pc.Returned?
    ensures Play(r, evs).s.pc.Returned?
    decreases |evs|
  {
    if evs != [] {
      ReturnedStep(r.s, evs[0]);
      ReturnedStays(Advance(r, evs[0]), evs[1..]);
    }
  }

  lemma ReturnedStep(s: State, ev: Event)
    requires s.pc.Returned?
    ensures Step(s, ev).pc.Returned?
  {}

  lemma {:induction false} TurnsUse(r: Run, evs: seq<Event>)
    requires Inv(r) && r.s.stop && Diligent(r, evs) && Turns(evs) >= Rank(r.s)
    ensures Play(r, evs).s.pc.Returned?
    decreases |evs|
  {
    if r.s.pc.Returned? {
      ReturnedStays(r, evs);
    } else {
      StepRanks(r, evs[0]);
      TurnsUse(Advance(r, evs[0]), evs[1..]);
    }
  }

  /** Liveness: from any reachable state in which the connector is stopped, whatever
      dials, handshakes, peers and pausers do, the loop has returned once it has had
      17 turns, provided nobody arms, disarms or resumes. */
  lemma StopReturns(retry: int, before: seq<Event>, after: seq<Event>)
    requires var r := Play(Initial(retry), before); r.s.stop && Diligent(r, after) && Turns(after) >= 17
    ensures Play(Play(Initial(retry), before), after).s.pc.Returned?
  {
    PlayKeeps(Initial(retry), before);
    TurnsUse(Play(Initial(retry), before), after);
  }

  /** And there is always such a run: the loop can return by its own steps alone. */
  lemma {:induction false} CanReturn(r: Run) returns (evs: seq<Event>)
    requires Inv(r) && r.s.stop
    ensures Diligent(r, evs) && |evs| <= Rank(r.s) <= 17 && Play(r, evs).s.pc.Returned?
    decreases Rank(r.s)
  {
    if r.s.pc.Returned? {
      evs := [];
    } else {
      var ev := Loop(if r.s.pc.Dialing? then DialErr(false) else if r.s.pc.Joining? then HandshakeEnds(true)
          else ByStop);
      LoopEnabled(r.s, ev.c);
      StepRanks(r, ev);
      var rest := CanReturn(Advance(r, ev));
      evs := [ev] + rest;
      assert evs[1..] == rest;
    }
  }
}
