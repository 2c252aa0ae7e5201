/** What a pause keeps the connector from doing, and what it does when nothing
    keeps it: reach an installed session. */
module ConnectorSession {
  import opened Base
  import opened Connector

  // ------------------------------------------------------------------- pauses

  /** Between the pause check and the dial it allows. */
  predicate CheckedForDial(pc: Pc) { pc.PolicyCheck? || pc.StopCheck? || pc.Dialing? }

  /** Between the check before the handshake and the end of the handshake. */
  predicate CheckedForHandshake(pc: Pc) { pc.Shaking? }

  /** Between the last check and the end of the session it allows. */
  predicate CheckedForSession(pc: Pc) {
    pc.StopLast? || pc.Install? || pc.MarkConnected? || pc.AnnounceReady? || pc.Live?
  }

  ghost predicate NoResume(evs: seq<Event>) { forall ev :: ev in evs ==> !ev.Resume? }

  lemma PauseBarsStep(s: State, ev: Event)
    requires Shaped(s.pc) && s.c.paused && !ev.Resume?
    ensures Barred(s, Step(s, ev))
  {
    if ev.Loop? {
      if Waits(s.pc) { PauseBarsWait(s, ev.c); }
      else if Dials(s.pc) { PauseBarsDial(s, ev.c); }
      else if Serves(s.pc) { PauseBarsServe(s, ev.c); }
      else { PauseBarsLeave(s, ev.c); }
    }
  }

  /** No barrier is passed: each stage is only entered from itself. */
  predicate Barred(s: State, s': State) {
    && s'.c.paused
    && (CheckedForDial(s'.pc) ==> CheckedForDial(s.pc))
    && (CheckedForHandshake(s'.pc) ==> CheckedForHandshake(s.pc))
    && (CheckedForSession(s'.pc) ==> CheckedForSession(s.pc))
  }

  lemma PauseBarsWait(s: State, ch: Choice)
    requires Waits(s.pc) && s.c.paused
    ensures Barred(s, WaitStep(s, ch))
  {}

  lemma PauseBarsDial(s: State, ch: Choice)
    requires Dials(s.pc) && s.c.paused
    ensures Barred(s, DialStep(s, ch))
  {}

  lemma PauseBarsServe(s: State, ch: Choice)
    requires Serves(s.pc) && s.c.paused
    ensures Barred(s, ServeStep(s, ch))
  {}

  lemma PauseBarsLeave(s: State, ch: Choice)
    requires Leaves(s.pc) && Shaped(s.pc) && s.c.paused
    ensures Barred(s, LeaveStep(s, ch))
  {}

  /** A pause that precedes the pause check bars the dial, one that precedes the second
      check bars the handshake, and one that precedes the last check bars the session,
      whatever else happens, until somebody resumes. */
  lemma {:induction false} PauseBars(r: Run, evs: seq<Event>)
    requires Inv(r) && r.s.c.paused && NoResume(evs)
    ensures var s' := Play(r, evs).s;
            && s'.c.paused
            && (!CheckedForDial(r.s.pc) ==> !CheckedForDial(s'.pc))
            && (!CheckedForHandshake(r.s.pc) ==> !CheckedForHandshake(s'.pc))
            && (!CheckedForSession(r.s.pc) ==> !CheckedForSession(s'.pc))
    decreases |evs|
  {
    if evs != [] {
      assert evs[0] in evs;
      PauseBarsStep(r.s, evs[0]);
      StepKeeps(r, evs[0]);
      PauseBars(Advance(r, evs[0]), evs[1..]);
    }
  }

  /** In particular no transport is dialed and no session installed. */
  lemma {:induction false} PausedStaysQuiet(r: Run, evs: seq<Event>)
    requires Inv(r) && r.s.c.paused && NoResume(evs)
    ensures var s' := Play(r, evs).s;
            && (!CheckedForDial(r.s.pc) ==> |s'.wire| == |r.s.wire|)
            && (!CheckedForSession(r.s.pc) && r.s.c.sess.None? ==> s'.c.sess.None?)
    decreases |evs|
  {
    if evs != [] {
      assert evs[0] in evs;
      PauseBarsStep(r.s, evs[0]);
      QuietStep(r.s, evs[0]);
      StepKeeps(r, evs[0]);
      PausedStaysQuiet(Advance(r, evs[0]), evs[1..]);
    }
  }

  predicate Quiet(s: State, s': State) {
    && (!s.pc.Dialing? ==> |s'.wire| == |s.wire|)
    && (!s.pc.Install? && s.c.sess.None? ==> s'.c.sess.None?)
  }

  lemma QuietWait(s: State, ch: Choice)
    requires Waits(s.pc)
    ensures Quiet(s, WaitStep(s, ch))
  {}

  lemma QuietDial(s: State, ch: Choice)
    requires Dials(s.pc)
    ensures Quiet(s, DialStep(s, ch))
  {}

  lemma QuietServe(s: State, ch: Choice)
    requires Serves(s.pc)
    ensures Quiet(s, ServeStep(s, ch))
  {}

  lemma QuietLeave(s: State, ch: Choice)
    requires Leaves(s.pc)
    ensures Quiet(s, LeaveStep(s, ch))
  {}

  lemma QuietStep(s: State, ev: Event)
    ensures Quiet(s, Step(s, ev))
  {
    if ev.Loop? {
      if Waits(s.pc) { QuietWait(s, ev.c); }
      else if Dials(s.pc) { QuietDial(s, ev.c); }
      else if Serves(s.pc) { QuietServe(s, ev.c); }
      else { QuietLeave(s, ev.c); }
    }
  }

  // ------------------------------------------------------- reaching a session

  /** On the way out of the loop. */
  predicate Doomed(pc: Pc) {
    || pc.CloseCurrent? || pc.Joining? || pc.Returned?
    || (pc.Closing? && !pc.next.ReadPolicy?)
    || ((pc.Clearing? || pc.MarkDown? || pc.AnnounceDown?) && !pc.next.ReadPolicy?)
  }

  /** Armed, neither paused nor stopped. */
  predicate Free(s: State) {
    && s.c.armed && !s.c.paused && !s.stop && !Doomed(s.pc)
    && (s.pc.AwaitArm? ==> s.pc.g != s.c.gen)
  }

  /** What the world must do: let the dial and the handshake succeed, the timer expire
      and the selects that are ready wake. */
  predicate Helpful(s: State, ch: Choice) {
    && (s.pc.Dialing? ==> ch.DialOk?)
    && (s.pc.Shaking? ==> ch == HandshakeEnds(false))
    && (s.pc.Sleep? ==> ch.ByTimer?)
    && (s.pc.AwaitArm? || s.pc.AwaitResume? ==> ch.ByWake?)
    && (s.pc.Live? ==> ch.Go?)
  }

  /** A bound on the turns to a session. */
  function Ahead(s: State): nat {
    var c := s.c;
    match s.pc
    case Live(_) => 0
    case AnnounceReady(_) => 1
    case MarkConnected(_) => 2
    case Install(_) => 3
    case StopLast(_) => 4
    case PauseLast(_) => 5
    case Shook(_, err) => if err then 20 else 6
    case Shaking(_) => 7
    case PauseRecheck(_) => 8
    case Announce(_) => 9
    case Recheck(g, t, err) => if IsCurrent(c, g) && !err && t.Some? then 10 else 20
    case Dialed(g, t, err) => if IsCurrent(c, g) && !err && t.Some? then 11 else 21
    case Dialing(g) => if IsCurrent(c, g) then 12 else 22
    case StopCheck(g) => if IsCurrent(c, g) then 13 else 23
    case PolicyCheck(g) => if IsCurrent(c, g) then 14 else 19
    case PauseCheck(g) => if IsCurrent(c, g) then 15 else 20
    case Claim(_, g, _) => if IsCurrent(c, g) then 16 else 19
    case Sleep(g, _, _) => if IsCurrent(c, g) then 17 else 20
    case ReadPolicy(_) => 18
    case AwaitArm(_, _) => 19
    case AwaitResume(_) => 19
    case Closing(_, _) => 19
    case AnnounceDown(_) => 19
    case MarkDown(_) => 20
    case Clearing(_, _) => 21
    case _ => 0
  }

  predicate Nearer(s: State, s': State) { Free(s') && (Ahead(s') < Ahead(s) || (s.pc.Live? && s' == s)) }

  lemma FreeWait(s: State, ch: Choice)
    requires Free(s) && Helpful(s, ch) && Waits(s.pc)
    ensures Nearer(s, WaitStep(s, ch))
  {}

  lemma FreeDial(s: State, ch: Choice)
    requires Free(s) && Helpful(s, ch) && Dials(s.pc)
    ensures Nearer(s, DialStep(s, ch))
  {}

  lemma FreeServe(s: State, ch: Choice)
    requires Free(s) && Helpful(s, ch) && Serves(s.pc)
    ensures Nearer(s, ServeStep(s, ch))
  {}

  lemma FreeLeave(s: State, ch: Choice)
    requires Free(s) && Leaves(s.pc)
    ensures Nearer(s, LeaveStep(s, ch))
  {}

  lemma FreeStep(s: State, ch: Choice)
    requires Free(s) && Helpful(s, ch)
    ensures Nearer(s, LoopStep(s, ch))
  {
    if Waits(s.pc) { FreeWait(s, ch); }
    else if Dials(s.pc) { FreeDial(s, ch); }
    else if Serves(s.pc) { FreeServe(s, ch); }
    else { FreeLeave(s, ch); }
  }

  /** The loop's turns only, each of them helped. */
  ghost predicate Helped(r: Run, evs: seq<Event>)
    decreases |evs|
  {
    evs == [] || (evs[0].Loop? && Helpful(r.s, evs[0].c) && Helped(Advance(r, evs[0]), evs[1..]))
  }

  lemma {:induction false} FreeReaches(r: Run, evs: seq<Event>)
    requires Free(r.s) && Helped(r, evs) && |evs| >= Ahead(r.s)
    ensures Play(r, evs).s.pc.Live?
    decreases |evs|
  {
    if evs != [] {
      FreeStep(r.s, evs[0].c);
      FreeReaches(Advance(r, evs[0]), evs[1..]);
    } else {
      AheadZero(r.s);
    }
  }

  lemma AheadZero(s: State)
    requires Free(s) && Ahead(s) == 0
    ensures s.pc.Live?
  {}

  lemma AheadBound(s: State)
    ensures Ahead(s) <= 23
  {}

  /** From any reachable state in which the connector is armed and neither paused nor
      stopped, 23 helped turns bring it to an installed session that the store shows as
      connected and ready. */
  lemma Connects(retry: int, before: seq<Event>, evs: seq<Event>)
    requires var r := Play(Initial(retry), before);
             r.s.c.armed && !r.s.c.paused && !r.s.stop && Helped(r, evs) && |evs| >= 23
    ensures var s := Play(Play(Initial(retry), before), evs).s;
            && s.pc.Live? && s.c.sess == Some(s.pc.t) && s.c.connected
            && s.c.published.Some? && s.c.published.value.phase in {Ready, Bootloader} && s.c.published.value.armed
  {
    var r := Play(Initial(retry), before);
    PlayKeeps(Initial(retry), before);
    FreeExactly(retry, before);
    AheadBound(r.s);
    FreeReaches(r, evs);
    FreeStays(r, evs);
    PlayKeeps(r, evs);
  }

  lemma {:induction false} FreeStays(r: Run, evs: seq<Event>)
    requires Free(r.s) && Helped(r, evs)
    ensures Free(Play(r, evs).s)
    decreases |evs|
  {
    if evs != [] {
      FreeStep(r.s, evs[0].c);
      FreeStays(Advance(r, evs[0]), evs[1..]);
    }
  }

  /** And such a run always exists. */
  lemma {:induction false} CanConnect(r: Run, n: nat) returns (evs: seq<Event>)
    requires Free(r.s)
    ensures |evs| == n && Helped(r, evs)
    decreases n
  {
    if n == 0 {
      evs := [];
    } else {
      var pc := r.s.pc;
      var ch: Choice :=
        if pc.Dialing? then DialOk else if pc.Shaking? then HandshakeEnds(false) else if pc.Sleep? then ByTimer
        else if pc.AwaitArm? || pc.AwaitResume? then ByWake else Go;
      FreeStep(r.s, ch);
      var rest := CanConnect(Advance(r, Loop(ch)), n - 1);
      evs := [Loop(ch)] + rest;
      assert evs[1..] == rest;
    }
  }

  /** Outside those turns: a loop that waits for a policy is waiting for a later one
      than it read, or there is none. */
  predicate Dormant(s: State) {
    && (s.pc.AwaitArm? ==> s.pc.g <= s.c.gen && (s.pc.g == s.c.gen ==> !s.c.armed))
    && (Doomed(s.pc) ==> s.stop)
  }

  lemma DormantStep(s: State, ev: Event)
    requires Dormant(s) && Shaped(s.pc)
    ensures Dormant(Step(s, ev))
  {
    if ev.Loop? {
      if Waits(s.pc) { DormantWait(s, ev.c); }
      else if Dials(s.pc) { DormantDial(s, ev.c); }
      else if Serves(s.pc) { DormantServe(s, ev.c); }
      else { DormantLeave(s, ev.c); }
    }
  }

  lemma DormantWait(s: State, ch: Choice)
    requires Dormant(s) && Waits(s.pc)
    ensures Dormant(WaitStep(s, ch))
  {}

  lemma DormantDial(s: State, ch: Choice)
    requires Dormant(s) && Dials(s.pc)
    ensures Dormant(DialStep(s, ch))
  {}

  lemma DormantServe(s: State, ch: Choice)
    requires Dormant(s) && Serves(s.pc)
    ensures Dormant(ServeStep(s, ch))
  {}

  lemma DormantLeave(s: State, ch: Choice)
    requires Dormant(s) && Leaves(s.pc) && Shaped(s.pc)
    ensures Dormant(LeaveStep(s, ch))
  {}

  lemma {:induction false} DormantRun(r: Run, evs: seq<Event>)
    requires Inv(r) && Dormant(r.s)
    ensures Dormant(Play(r, evs).s)
    decreases |evs|
  {
    if evs != [] {
      DormantStep(r.s, evs[0]);
      StepKeeps(r, evs[0]);
      DormantRun(Advance(r, evs[0]), evs[1..]);
    }
  }

  /** A reachable connector is free exactly when it is armed, not paused and not stopped. */
  lemma FreeExactly(retry: int, evs: seq<Event>)
    ensures var s := Play(Initial(retry), evs).s; Free(s) <==> s.c.armed && !s.c.paused && !s.stop
  {
    PlayKeeps(Initial(retry), evs);
    DormantRun(Initial(retry), evs);
  }

  // ------------------------------------------------------ what the calls say

  /** Armed by the last policy call, and from the start if there was none. */
  function ArmedBy(evs: seq<Event>): bool {
    if evs == [] then true
    else
      var ev := evs[|evs| - 1];
      if ev.Arm? || ev.Disarm? then ev.Arm? else ArmedBy(evs[..|evs| - 1])
  }

  function PausedBy(evs: seq<Event>): bool {
    if evs == [] then false
    else
      var ev := evs[|evs| - 1];
      if ev.Pause? || ev.Resume? then ev.Pause? else PausedBy(evs[..|evs| - 1])
  }

  function StoppedBy(evs: seq<Event>): bool {
    evs != [] && (evs[|evs| - 1].Stop? || StoppedBy(evs[..|evs| - 1]))
  }

  lemma {:induction false} PlaySnoc(r: Run, evs: seq<Event>)
    requires evs != []
    ensures Play(r, evs) == Advance(Play(r, evs[..|evs| - 1]), evs[|evs| - 1])
    decreases |evs|
  {
    var n := |evs| - 1;
    if n == 0 {
      assert evs[..n] == [] && Play(Advance(r, evs[0]), evs[1..]) == Advance(r, evs[0]);
    } else {
      PlaySnoc(Advance(r, evs[0]), evs[1..]);
      assert evs[..n][1..] == evs[1..][..n - 1];
    }
  }

  /** The loop itself changes none of these. */
  predicate SamePolicy(s: State, s': State) {
    s'.c.armed == s.c.armed && s'.c.paused == s.c.paused && s'.stop == s.stop
  }

  lemma WaitPolicy(s: State, ch: Choice)
    requires Waits(s.pc)
    ensures SamePolicy(s, WaitStep(s, ch))
  {}

  lemma DialPolicy(s: State, ch: Choice)
    requires Dials(s.pc)
    ensures SamePolicy(s, DialStep(s, ch))
  {}

  lemma ServePolicy(s: State, ch: Choice)
    requires Serves(s.pc)
    ensures SamePolicy(s, ServeStep(s, ch))
  {}

  lemma LeavePolicy(s: State, ch: Choice)
    requires Leaves(s.pc)
    ensures SamePolicy(s, LeaveStep(s, ch))
  {}

  lemma CallPolicy(s: State, ev: Event)
    ensures var s' := Step(s, ev);
            && s'.c.armed == (if ev.Arm? || ev.Disarm? then ev.Arm? else s.c.armed)
            && s'.c.paused == (if ev.Pause? || ev.Resume? then ev.Pause? else s.c.paused)
            && s'.stop == (s.stop || ev.Stop?)
  {
    if ev.Loop? {
      if Waits(s.pc) { WaitPolicy(s, ev.c); }
      else if Dials(s.pc) { DialPolicy(s, ev.c); }
      else if Serves(s.pc) { ServePolicy(s, ev.c); }
      else { LeavePolicy(s, ev.c); }
    }
  }

  /** A connector is armed, paused or stopped exactly as the calls so far say. */
  lemma {:induction false} CallsDecide(retry: int, evs: seq<Event>)
    ensures var s := Play(Initial(retry), evs).s;
            && s.c.armed == ArmedBy(evs) && s.c.paused == PausedBy(evs) && s.stop == StoppedBy(evs)
    decreases |evs|
  {
    if evs != [] {
      var n := |evs| - 1;
      PlaySnoc(Initial(retry), evs);
      CallsDecide(retry, evs[..n]);
      CallPolicy(Play(Initial(retry), evs[..n]).s, evs[n]);
    }
  }

  // -------------------------------------------------- which sessions there are

  /** The transport a handshake has just ended on without error. */
  function PassedBy(s: State, ev: Event): set<nat> {
    if s.pc.Shaking? && ev == Loop(HandshakeEnds(false)) then {s.pc.t} else {}
  }

  /** The transports whose handshake ended without error so far. */
  function Passed(r: Run, evs: seq<Event>): set<nat>
    decreases |evs|
  {
    if evs == [] then {} else PassedBy(r.s, evs[0]) + Passed(Advance(r, evs[0]), evs[1..])
  }

  /** Past a dial that returned no error; past a handshake that ended without one. */
  predicate Dialled(pc: Pc) {
    pc.Announce? || pc.PauseRecheck? || pc.Shaking? || pc.Shook? || Greeted(pc)
  }

  predicate Greeted(pc: Pc) {
    || (pc.Shook? && !pc.err) || pc.PauseLast? || pc.StopLast? || pc.Install? || pc.MarkConnected?
    || pc.AnnounceReady? || pc.Live?
  }

  predicate Earned(s: State, passed: set<nat>) {
    && ((s.pc.Dialed? || s.pc.Recheck?) && s.pc.dialed.Some? && s.pc.dialed.value < |s.wire| ==>
          s.wire[s.pc.dialed.value].failed == s.pc.err)
    && (Dialled(s.pc) && s.pc.t < |s.wire| ==> !s.wire[s.pc.t].failed)
    && (Greeted(s.pc) ==> s.pc.t in passed)
    && (s.c.sess.Some? ==> s.c.sess.value in passed)
  }

  lemma EarnedMore(s: State, passed: set<nat>, more: set<nat>)
    requires Earned(s, passed)
    ensures Earned(s, passed + more)
  {}

  lemma EarnedWait(s: State, ch: Choice, passed: set<nat>)
    requires Waits(s.pc) && Earned(s, passed)
    ensures Earned(WaitStep(s, ch), passed)
  {}

  lemma EarnedDial(s: State, ch: Choice, passed: set<nat>)
    requires Dials(s.pc) && InRange(s) && Earned(s, passed)
    ensures Earned(DialStep(s, ch), passed)
  {}

  lemma EarnedServe(s: State, ch: Choice, passed: set<nat>)
    requires Serves(s.pc) && Earned(s, passed)
    ensures Earned(ServeStep(s, ch), passed + PassedBy(s, Loop(ch)))
  {}

  lemma EarnedLeave(s: State, ch: Choice, passed: set<nat>)
    requires Leaves(s.pc) && Shaped(s.pc) && Earned(s, passed)
    ensures Earned(LeaveStep(s, ch), passed)
  {}

  lemma EarnedCall(s: State, ev: Event, passed: set<nat>)
    requires !ev.Loop? && Earned(s, passed)
    ensures Earned(Step(s, ev), passed)
  {}

  lemma EarnedStep(s: State, ev: Event, passed: set<nat>)
    requires Safe(s) && Earned(s, passed)
    ensures Earned(Step(s, ev), passed + PassedBy(s, ev))
  {
    if !ev.Loop? { EarnedCall(s, ev, passed); }
    else if Waits(s.pc) { EarnedWait(s, ev.c, passed); }
    else if Dials(s.pc) { EarnedDial(s, ev.c, passed); }
    else if Serves(s.pc) { EarnedServe(s, ev.c, passed); }
    else { EarnedLeave(s, ev.c, passed); }
    if !Serves(s.pc) || !ev.Loop? { EarnedMore(Step(s, ev), passed, PassedBy(s, ev)); }
  }

  lemma {:induction false} EarnedRun(r: Run, evs: seq<Event>, passed: set<nat>)
    requires Inv(r) && Earned(r.s, passed)
    ensures Earned(Play(r, evs).s, passed + Passed(r, evs))
    decreases |evs|
  {
    if evs == [] {
      assert passed + Passed(r, evs) == passed;
    } else {
      var now := PassedBy(r.s, evs[0]);
      EarnedStep(r.s, evs[0], passed);
      StepKeeps(r, evs[0]);
      EarnedRun(Advance(r, evs[0]), evs[1..], passed + now);
      assert passed + now + Passed(Advance(r, evs[0]), evs[1..]) == passed + Passed(r, evs);
    }
  }

  /** A session is only ever installed on a transport whose handshake ended without
      error, and no handshake is begun on one whose dial failed. */
  lemma SessionsEarned(retry: int, evs: seq<Event>)
    ensures var r := Play(Initial(retry), evs);
            && (r.s.c.sess.Some? ==> r.s.c.sess.value in Passed(Initial(retry), evs))
            && (r.s.pc.Shaking? ==> r.s.pc.t < |r.s.wire| && !r.s.wire[r.s.pc.t].failed)
  {
    PlayKeeps(Initial(retry), evs);
    EarnedRun(Initial(retry), evs, {});
  }

  // --------------------------------------------------------------- the delay

  /** At the top of the loop a disarmed connector waits to be armed; an armed one sleeps
      before a reconnect attempt, and only before one, for the delay it still owes or
      else the retry delay, if that is positive; and only the timer ends that sleep
      with an attempt. */
  lemma SleepsExactly(retry: int, evs: seq<Event>, ch: Choice)
    ensures var r := Play(Initial(retry), evs); var due := if r.owed.Some? then r.owed.value else r.s.c.retry;
            var next := LoopStep(r.s, ch).pc;
            && (r.s.pc.ReadPolicy? ==>
                  next == if !r.s.c.armed then AwaitArm(r.s.pc.reconnect, r.s.c.gen)
                          else if r.s.pc.reconnect && due > 0 then Sleep(r.s.c.gen, r.owed.Some?, due)
                          else Claim(r.s.pc.reconnect, r.s.c.gen, r.s.pc.reconnect && r.owed.Some?))
            && (r.s.pc.Sleep? && next.Claim? ==> ch.ByTimer?)
            && r.s.c.retry == retry
  {
    PlayKeeps(Initial(retry), evs);
    RetryStays(Initial(retry), evs);
    var r := Play(Initial(retry), evs);
    if r.s.pc.ReadPolicy? || r.s.pc.Sleep? { assert LoopStep(r.s, ch) == WaitStep(r.s, ch); }
  }

  lemma RetryWait(s: State, ch: Choice)
    requires Waits(s.pc)
    ensures WaitStep(s, ch).c.retry == s.c.retry
  {}

  lemma RetryDial(s: State, ch: Choice)
    requires Dials(s.pc)
    ensures DialStep(s, ch).c.retry == s.c.retry
  {}

  lemma RetryServe(s: State, ch: Choice)
    requires Serves(s.pc)
    ensures ServeStep(s, ch).c.retry == s.c.retry
  {}

  lemma RetryLeave(s: State, ch: Choice)
    requires Leaves(s.pc)
    ensures LeaveStep(s, ch).c.retry == s.c.retry
  {}

  lemma RetryStep(s: State, ev: Event)
    ensures Step(s, ev).c.retry == s.c.retry
  {
    if ev.Loop? {
      if Waits(s.pc) { RetryWait(s, ev.c); }
      else if Dials(s.pc) { RetryDial(s, ev.c); }
      else if Serves(s.pc) { RetryServe(s, ev.c); }
      else { RetryLeave(s, ev.c); }
    }
  }

  lemma {:induction false} RetryStays(r: Run, evs: seq<Event>)
    ensures Play(r, evs).s.c.retry == r.s.c.retry
    decreases |evs|
  {
    if evs != [] {
      RetryStep(r.s, evs[0]);
      RetryStays(Advance(r, evs[0]), evs[1..]);
    }
  }

  // ------------------------------------------------------ what the store shows

  /** Between the announcement of a handshake and what follows it. */
  predicate Shakes(pc: Pc) {
    || pc.PauseRecheck? || pc.Shaking? || pc.Shook? || pc.PauseLast? || pc.StopLast? || pc.Install?
    || pc.MarkConnected? || pc.AnnounceReady?
  }

  predicate Phased(s: State) {
    Shakes(s.pc) ==> s.c.published == Some(Published(Handshaking, s.c.armed))
  }

  lemma PhasedWait(s: State, ch: Choice)
    requires Waits(s.pc)
    ensures Phased(WaitStep(s, ch))
  {}

  lemma PhasedDial(s: State, ch: Choice)
    requires Dials(s.pc) && Phased(s)
    ensures Phased(DialStep(s, ch))
  {}

  lemma PhasedServe(s: State, ch: Choice)
    requires Serves(s.pc) && Phased(s)
    ensures Phased(ServeStep(s, ch))
  {}

  lemma PhasedLeave(s: State, ch: Choice)
    requires Leaves(s.pc) && Shaped(s.pc)
    ensures Phased(LeaveStep(s, ch))
  {}

  lemma PhasedStep(s: State, ev: Event)
    requires Phased(s) && Shaped(s.pc)
    ensures Phased(Step(s, ev))
  {
    if ev.Loop? {
      if Waits(s.pc) { PhasedWait(s, ev.c); }
      else if Dials(s.pc) { PhasedDial(s, ev.c); }
      else if Serves(s.pc) { PhasedServe(s, ev.c); }
      else { PhasedLeave(s, ev.c); }
    }
  }

  lemma {:induction false} PhasedRun(r: Run, evs: seq<Event>)
    requires Inv(r) && Phased(r.s)
    ensures Phased(Play(r, evs).s)
    decreases |evs|
  {
    if evs != [] {
      PhasedStep(r.s, evs[0]);
      StepKeeps(r, evs[0]);
      PhasedRun(Advance(r, evs[0]), evs[1..]);
    }
  }

  lemma AnnouncesMode(s: State, ota: bool)
    requires s.pc.AnnounceReady?
    ensures var s' := ServeStep(s, Mode(ota));
            s'.pc.Live? && s'.c.published == Some(Published(if ota then Bootloader else Ready, s.c.armed))
  {}

  /** The store says "handshaking" from the announcement on, and the next thing it says
      is the mode the device is in. */
  lemma PhaseFollows(retry: int, evs: seq<Event>, ota: bool)
    ensures var s := Play(Initial(retry), evs).s; var s' := LoopStep(s, Mode(ota));
            && (Shakes(s.pc) ==> s.c.published == Some(Published(Handshaking, s.c.armed)))
            && (s.pc.AnnounceReady? ==>
                  s'.pc.Live? && s'.c.published == Some(Published(if ota then Bootloader else Ready, s.c.armed)))
  {
    PhasedRun(Initial(retry), evs);
    var s := Play(Initial(retry), evs).s;
    if s.pc.AnnounceReady? { AnnouncesMode(s, ota); }
  }

  lemma LiveEnds(s: State)
    requires s.pc.Live? && s.pc.t < |s.wire| && s.wire[s.pc.t].reported
    ensures ServeStep(s, ByWake) == s.(pc := Clearing(Some(s.pc.t), ReadPolicy(true)))
  {}

  lemma ClearsDown(s: State, ch: Choice)
    requires s.pc.Clearing? && s.c.sess == s.pc.whose
    ensures LeaveStep(s, ch) == s.(c := s.c.(sess := None), pc := MarkDown(s.pc.next))
  {}

  lemma MarksDown(s: State, ch: Choice)
    requires s.pc.MarkDown?
    ensures LeaveStep(s, ch) == s.(c := s.c.(connected := false), pc := AnnounceDown(s.pc.next))
  {}

  /** A session whose transport reports a disconnection is given up: four turns later
      nothing is installed, the store says so, and the loop is at its top again. */
  lemma SessionEnds(r: Run, a: Choice, b: Choice, c: Choice)
    requires r.s.pc.Live? && r.s.c.sess == Some(r.s.pc.t)
    requires r.s.pc.t < |r.s.wire| && r.s.wire[r.s.pc.t].reported
    ensures var s := LoopStep(LoopStep(LoopStep(LoopStep(r.s, ByWake), a), b), c);
            && s.pc == ReadPolicy(true) && s.c.sess.None? && !s.c.connected
            && s.c.published == Some(Published(Disconnected, s.c.armed))
  {
    var s1 := ServeStep(r.s, ByWake);
    LiveEnds(r.s);
    ClearsDown(s1, a);
    MarksDown(LeaveStep(s1, a), b);
  }
}
