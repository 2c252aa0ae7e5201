/** The connector's methods: the sections they execute under the lock, and the loop
    that waits for leave to dial while other callers change the policy. */
module ConnectorCode {
  import opened Base
  import opened Connector

  /** What other callers do before the loop's next section, and what the select
      finds ready then. */
  datatype Turn = Turn(calls: seq<Event>, choice: Choice)

  predicate PolicyCall(ev: Event) { ev.Arm? || ev.Disarm? || ev.Resume? || ev.Stop? }

  predicate OnlyPolicyCalls(turns: seq<Turn>) {
    forall k, j :: 0 <= k < |turns| && 0 <= j < |turns[k].calls| ==> PolicyCall(turns[k].calls[j])
  }

  function StepAll(s: State, evs: seq<Event>): State {
    if evs == [] then s else Step(StepAll(s, evs[..|evs| - 1]), evs[|evs| - 1])
  }

  /** Still inside waitForDial. */
  predicate Waiting(pc: Pc) { pc.ReadPolicy? || pc.AwaitArm? || pc.Sleep? || pc.Claim? }

  /** The machine's own run of waitForDial over some turns. */
  function WaitRun(s: State, turns: seq<Turn>): State
    decreases |turns|
  {
    if turns == [] || !Waiting(s.pc) then s else WaitRun(LoopStep(StepAll(s, turns[0].calls), turns[0].choice),
        turns[1..])
  }

  class Link {
    var stopped: bool
    var sess: Option<nat>
    var paused: bool
    var resume: nat
    var reconnectArmed: bool
    var reconnectDelay: int
    var reconnectDelayPending: bool
    var policyChanged: nat
    var retryDelay: int
    var published: Option<Published>
    var connected: bool

    ghost function View(): Shared
      reads this
    {
      Shared(sess, paused, resume, reconnectArmed, reconnectDelay, reconnectDelayPending, policyChanged, retryDelay,
             published, connected)
    }

    constructor (retry: int)
      ensures View() == Initial(retry).s.c && !stopped
    {
      stopped, sess, paused, resume := false, None, false, 0;
      reconnectArmed, reconnectDelay, reconnectDelayPending := true, 0, false;
      policyChanged, retryDelay := 0, retry;
      published, connected := None, false;
    }

    /** A new channel takes the closed one's place. */
    method SignalPolicyChanged()
      modifies this`policyChanged
      ensures policyChanged == old(policyChanged) + 1
    {
      policyChanged := policyChanged + 1;
    }

    method SetConnectionReconnect(armed: bool)
      requires armed == reconnectArmed
      modifies this`published
      ensures View() == Republish(old(View()))
    {
      var connection := Published(Disconnected, armed);
      if published.Some? { connection := published.value.(armed := armed); }
      published := Some(connection);
    }

    method ArmReconnect(delay: int)
      modifies this
      ensures View() == DoArm(old(View()), delay) && stopped == old(stopped)
    {
      reconnectArmed, reconnectDelay, reconnectDelayPending := true, delay, true;
      SignalPolicyChanged();
      SetConnectionReconnect(true);
    }

    method DisarmReconnect()
      modifies this
      ensures View() == DoDisarm(old(View())) && stopped == old(stopped)
    {
      reconnectArmed, reconnectDelay, reconnectDelayPending := false, 0, false;
      SignalPolicyChanged();
      SetConnectionReconnect(false);
    }

    method PublishConnection(phase: Phase)
      modifies this`published
      ensures View() == DoPublish(old(View()), phase)
    {
      published := Some(Published(phase, reconnectArmed));
    }

    ghost function At(pc: Pc): State
      reads this
    {
      State(View(), pc, [], stopped, [])
    }

    /** Where the loop goes once it has read the policy. */
    method ReconnectPolicy(reconnect: bool) returns (next: Pc)
      ensures forall ch :: WaitStep(At(ReadPolicy(reconnect)), ch) == At(next)
    {
      var delay, pending := retryDelay, reconnectDelayPending;
      if pending { delay := reconnectDelay; }
      if !reconnectArmed { return AwaitArm(reconnect, policyChanged); }
      if !reconnect || delay <= 0 { return Claim(reconnect, policyChanged, reconnect && pending); }
      return Sleep(policyChanged, pending, delay);
    }

    method ClaimReconnect(policy: nat, pending: bool) returns (ok: bool)
      modifies this`reconnectDelayPending
      ensures ok == IsCurrent(old(View()), policy)
      ensures View() == (if ok then DoClaim(old(View()), pending) else old(View()))
    {
      if policy != policyChanged || !reconnectArmed { return false; }
      if pending { reconnectDelayPending := false; }
      return true;
    }

    /** Pause's section; the session it saw is closed afterwards. */
    method BeginPause() returns (closer: Option<nat>)
      modifies this`paused, this`resume
      ensures View() == DoPause(old(View())) && closer == sess
    {
      if !paused { paused, resume := true, resume + 1; }
      return sess;
    }

    method Resume()
      modifies this`paused
      ensures View() == DoResume(old(View()))
      ensures forall id :: Resumed(View(), id)
    {
      if paused { paused := false; }
    }

    /** clearSession from start to end. */
    method ClearSession(whose: Option<nat>)
      modifies this`sess, this`connected, this`published
      ensures View() == DoPublish(DoClear(old(View()), whose).(connected := false), Disconnected)
    {
      if sess == whose { sess := None; }
      connected := false;
      PublishConnection(Disconnected);
    }

    method Perform(ev: Event)
      requires PolicyCall(ev)
      modifies this
      ensures forall pc :: At(pc) == Step(old(At(pc)), ev)
    {
      match ev
      case Arm(delay) => ArmReconnect(delay);
      case Disarm => DisarmReconnect();
      case Resume => Resume();
      case Stop => stopped := true;
    }

    method PerformAll(calls: seq<Event>)
      requires forall j :: 0 <= j < |calls| ==> PolicyCall(calls[j])
      modifies this
      ensures forall pc :: At(pc) == StepAll(old(At(pc)), calls)
    {
      for j := 0 to |calls|
        invariant forall pc :: At(pc) == StepAll(old(At(pc)), calls[..j])
      {
        assert calls[..j + 1][..j] == calls[..j];
        Perform(calls[j]);
      }
      assert calls[..|calls|] == calls;
    }

    /** One section of the waiting loop; a select with nothing ready stays put. */
    method Section(pc: Pc, choice: Choice) returns (next: Pc)
      requires Waiting(pc)
      modifies this`reconnectDelayPending
      ensures At(next) == LoopStep(old(At(pc)), choice)
      ensures next.PauseCheck? ==> IsCurrent(View(), next.g)
      ensures next.CloseCurrent? ==> stopped
      ensures Waiting(next) || next.PauseCheck? || next.CloseCurrent?
    {
      next := pc;
      match pc
      case ReadPolicy(reconnect) =>
        next := ReconnectPolicy(reconnect);
        assert WaitStep(At(pc), choice) == At(next);
      case AwaitArm(reconnect, g) =>
        if choice.ByStop? && stopped { next := CloseCurrent; }
        else if choice.ByWake? && policyChanged != g { next := ReadPolicy(reconnect); }
      case Sleep(g, pending, _) =>
        if choice.ByStop? && stopped { next := CloseCurrent; }
        else if choice.ByWake? && policyChanged != g { next := ReadPolicy(true); }
        else if choice.ByTimer? { next := Claim(true, g, pending); }
      case Claim(reconnect, g, pending) =>
        var ok := ClaimReconnect(g, pending);
        next := if ok then PauseCheck(g) else ReadPolicy(reconnect);
    }

    /** waitForDial: whatever callers do between its sections, it follows the
        machine; it leaves with a generation that is current and armed at that
        moment, or because it was stopped. */
    method WaitForDial(reconnect: bool, turns: seq<Turn>) returns (pc: Pc)
      requires OnlyPolicyCalls(turns)
      modifies this
      ensures At(pc) == WaitRun(old(At(ReadPolicy(reconnect))), turns)
      ensures pc.PauseCheck? ==> IsCurrent(View(), pc.g)
      ensures pc.CloseCurrent? ==> stopped
      ensures Waiting(pc) || pc.PauseCheck? || pc.CloseCurrent?
    {
      pc := ReadPolicy(reconnect);
      var k := 0;
      assert turns[0..] == turns;
      while k < |turns| && Waiting(pc)
        invariant 0 <= k <= |turns|
        invariant WaitRun(At(pc), turns[k..]) == WaitRun(old(At(ReadPolicy(reconnect))), turns)
        invariant pc.PauseCheck? ==> IsCurrent(View(), pc.g)
        invariant pc.CloseCurrent? ==> stopped
        invariant Waiting(pc) || pc.PauseCheck? || pc.CloseCurrent?
      {
        assert turns[k..][0] == turns[k] && turns[k..][1..] == turns[k + 1..];
        PerformAll(turns[k].calls);
        pc := Section(pc, turns[k].choice);
        k := k + 1;
      }
    }
  }
}
