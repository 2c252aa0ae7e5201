/** What the passkey prompt answers and delivers, both ways.  The reference is the
    outcome due to each prompt and whether a cancellation is still owed, kept from
    the calls and their replies. */
module PasskeyAnswers {
  import opened Base
  import opened PasskeyPrompt

  /** A run, the outcome sent to each channel, and whether a cancellation that met
      nobody is waiting for the next caller of Wait. */
  datatype History = History(r: Run, due: seq<Option<Outcome>>, owed: bool)

  /** A prompt is open: there is a newest channel, not yet answered, not withdrawn,
      and no waiter ended since it was made. */
  predicate Unanswered(h: History) {
    h.due != [] && h.due[|h.due| - 1].None? && !h.r.withdrawn && h.r.ended == {}
  }

  predicate Standing(r: Run) { r.s.chans != [] && !r.withdrawn && r.ended == {} }

  function Answered(due: seq<Option<Outcome>>, o: Outcome): seq<Option<Outcome>>
    requires due != []
  {
    due[|due| - 1 := Some(o)]
  }

  function Next(h: History, ev: Event): History {
    var r' := Advance(h.r, ev);
    var made := |r'.s.chans| > |h.r.s.chans|;
    History(r',
            if ev.Rearm? && made && h.r.current != [] then h.due + [Some(Pin(h.r.current[|h.r.current| - 1]))]
            else if made then h.due + [None]
            else if ev.Submit? && SixDigits(ev.pin) && Unanswered(h) then Answered(h.due, Pin(ev.pin))
            else if ev.Cancel? && Unanswered(h) then Answered(h.due, Canceled)
            else h.due,
            if ev.Cancel? && h.due == [] then true
            else if ev.Deactivate? && Standing(h.r) && Free(h.r.s.waiters, |h.r.s.chans| - 1) then true
            else if ev.BeginWait? && !Standing(h.r) then false
            else h.owed)
  }

  function Play(h: History, evs: seq<Event>): History
    decreases |evs|
  {
    if evs == [] then h else Play(Next(h, evs[0]), evs[1..])
  }

  const BEGIN := History(START, [], false)

  // ---------------------------------------------------------------- invariant

  function Holding(due: Option<Outcome>): seq<Outcome> { if due.Some? then [due.value] else [] }

  /** A channel nobody took holds what it was sent. */
  ghost predicate Kept(due: seq<Option<Outcome>>, s: State, c: int) {
    0 <= c < |due| && c < |s.chans| ==>
      && s.chans[c].sent == |Holding(due[c])|
      && (Free(s.waiters, c) ==> s.chans[c].buffer == Holding(due[c]))
  }

  /** A waiter that has not taken the outcome finds it, and one that has took it. */
  ghost predicate Delivered(due: seq<Option<Outcome>>, s: State, i: int) {
    0 <= i < |s.waiters| && s.waiters[i].ch < |due| && s.waiters[i].ch < |s.chans| ==>
      var w, d := s.waiters[i], due[s.waiters[i].ch];
      match w.stage
      case Got(o) => d == Some(o)
      case Finished => true
      case _ => s.chans[w.ch].buffer == Holding(d)
  }

  ghost predicate AllKept(due: seq<Option<Outcome>>, s: State) {
    |due| == |s.chans| && forall c {:trigger Kept(due, s, c)} :: Kept(due, s, c)
  }

  ghost predicate AllDelivered(due: seq<Option<Outcome>>, s: State) {
    forall i {:trigger Delivered(due, s, i)} :: Delivered(due, s, i)
  }

  /** Between prompts the prompt is terminal, unless there never was one. */
  predicate Idle(h: History) {
    && h.r.s.f.canceled == h.owed
    && (!h.r.s.f.waiting ==> (h.r.s.f.terminal <==> h.r.s.chans != []))
  }

  /** While active, a replay is barred exactly by a replay. */
  predicate Replayable(r: Run) {
    && (!r.off ==> (r.s.f.replayed <==> r.replays == 1))
    && (forall i :: 0 <= i < |r.current| ==> r.current[i] != "")
  }

  ghost predicate Inv2(h: History) {
    Inv(h.r) && AllKept(h.due, h.r.s) && AllDelivered(h.due, h.r.s) && Idle(h) && Replayable(h.r)
  }

  lemma UnansweredExactly(h: History)
    requires Inv(h.r) && AllKept(h.due, h.r.s)
    ensures Unanswered(h) <==> WouldSend(h.r.s.f)
    ensures Standing(h.r) <==> h.r.s.f.waiting
    ensures WouldSend(h.r.s.f) ==> h.r.s.f.result == Some(|h.r.s.chans| - 1)
  {
    var n := |h.due| - 1;
    assert Kept(h.due, h.r.s, n);
  }

  /** The same from the prompt's own fields. */
  lemma IdleStep(h: History, ev: Event)
    requires Idle(h) && Consumed(h.r.s) && (Standing(h.r) <==> h.r.s.f.waiting) && |h.due| == |h.r.s.chans|
    requires Formed(h.r.s)
    requires h.r.s.f.waiting ==> h.r.s.f.result.Some?
    ensures Idle(Next(h, ev))
  {}

  lemma IdleKept(h: History, ev: Event)
    requires Inv2(h)
    ensures Idle(Next(h, ev))
  {
    UnansweredExactly(h);
    IdleStep(h, ev);
  }

  lemma ReplayableKept(r: Run, ev: Event)
    requires Replay(r) && Replayable(r)
    ensures Replayable(Advance(r, ev))
  {}

  // ------------------------------------------------- channels and waiters

  /** A new channel, holding what it is due from the start. */
  lemma MadeKept(due: seq<Option<Outcome>>, d: Option<Outcome>, s: State, s': State)
    requires AllKept(due, s) && AllDelivered(due, s) && Formed(s) && s'.waiters == s.waiters
    requires s'.chans == s.chans + [Chan(Holding(d), |Holding(d)|)]
    ensures AllKept(due + [d], s') && AllDelivered(due + [d], s')
  {
    forall c ensures Kept(due + [d], s', c) { assert Kept(due, s, c); }
    forall i ensures Delivered(due + [d], s', i) { assert Delivered(due, s, i); }
  }

  /** The newest channel, so far empty, is sent an outcome. */
  lemma SentKept(due: seq<Option<Outcome>>, o: Outcome, s: State, s': State)
    requires AllKept(due, s) && AllDelivered(due, s) && s'.waiters == s.waiters && due != []
    requires due[|due| - 1].None? && s.chans[|due| - 1] == FRESH && s'.chans == Send(s.chans, |due| - 1, o)
    ensures AllKept(Answered(due, o), s') && AllDelivered(Answered(due, o), s')
  {
    assert FRESH.buffer + [o] == [o];
    forall c ensures Kept(Answered(due, o), s', c) { assert Kept(due, s, c); }
    forall i ensures Delivered(Answered(due, o), s', i) { assert Delivered(due, s, i); }
  }

  /** A waiter joins the newest channel, which nobody has. */
  lemma JoinKept(due: seq<Option<Outcome>>, s: State, s': State)
    requires AllKept(due, s) && AllDelivered(due, s) && due != [] && Free(s.waiters, |due| - 1)
    requires s'.chans == s.chans && s'.waiters == s.waiters + [Waiter(|due| - 1, Waiting)]
    ensures AllKept(due, s') && AllDelivered(due, s')
  {
    forall c ensures Kept(due, s', c) {
      assert Kept(due, s, c);
      if Free(s'.waiters, c) { StillFree(s.waiters, s'.waiters, c); }
    }
    forall i ensures Delivered(due, s', i) {
      assert Delivered(due, s, i) && Kept(due, s, |due| - 1);
    }
  }

  lemma StillFree(a: seq<Waiter>, b: seq<Waiter>, c: int)
    requires |a| <= |b| && forall i :: 0 <= i < |a| ==> a[i].ch == b[i].ch
    ensures Free(b, c) ==> Free(a, c)
  {
    if Free(b, c) {
      forall i | 0 <= i < |a| ensures !Takes(a, i, c) { assert !Takes(b, i, c); }
    }
  }

  /** A waiter moves on without touching its channel. */
  lemma MoveKept(due: seq<Option<Outcome>>, s: State, s': State, who: nat)
    requires AllKept(due, s) && AllDelivered(due, s) && who < |s.waiters| == |s'.waiters| && s'.chans == s.chans
    requires s'.waiters == s.waiters[who := s'.waiters[who]] && s'.waiters[who].ch == s.waiters[who].ch
    requires s'.waiters[who].stage.Finished? || (s'.waiters[who].stage.TimedOut? && s.waiters[who].stage.Waiting?)
    ensures AllKept(due, s') && AllDelivered(due, s')
  {
    forall c ensures Kept(due, s', c) {
      assert Kept(due, s, c);
      StillFree(s.waiters, s'.waiters, c);
    }
    forall i ensures Delivered(due, s', i) { assert Delivered(due, s, i); }
  }

  /** A waiter takes the outcome from its own channel. */
  lemma TakenKept(due: seq<Option<Outcome>>, s: State, s': State, who: nat)
    requires AllKept(due, s) && AllDelivered(due, s) && OneEach(s.waiters) && who < |s.waiters|
    requires s.waiters[who].ch < |s.chans| && s.waiters[who].stage.Waiting?
    requires var c := s.waiters[who].ch;
             && s.chans[c].buffer != []
             && s'.chans == s.chans[c := s.chans[c].(buffer := s.chans[c].buffer[1..])]
             && s'.waiters == s.waiters[who := Waiter(c, Got(s.chans[c].buffer[0]))]
    ensures AllKept(due, s') && AllDelivered(due, s')
  {
    var mine := s.waiters[who].ch;
    assert Delivered(due, s, who);
    forall c ensures Kept(due, s', c) {
      assert Kept(due, s, c) && Takes(s'.waiters, who, mine);
      StillFree(s.waiters, s'.waiters, c);
    }
    forall i ensures Delivered(due, s', i) {
      assert Delivered(due, s, i);
      if i != who && 0 <= i < |s.waiters| {
        assert Takes(s.waiters, who, mine) && Takes(s.waiters, i, s.waiters[i].ch);
      }
    }
  }

  /** Everything delivered and kept. */
  ghost predicate Sound(due: seq<Option<Outcome>>, s: State) { AllKept(due, s) && AllDelivered(due, s) }

  lemma SameKept(due: seq<Option<Outcome>>, s: State, s': State)
    requires Sound(due, s) && s'.chans == s.chans && s'.waiters == s.waiters
    ensures Sound(due, s')
  {
    forall c ensures Kept(due, s', c) { assert Kept(due, s, c); }
    forall i ensures Delivered(due, s', i) { assert Delivered(due, s, i); }
  }

  lemma BeginWaitSound(h: History)
    requires Inv2(h)
    ensures Sound(Next(h, BeginWait).due, Next(h, BeginWait).r.s)
  {
    var s, s' := h.r.s, Step(h.r.s, BeginWait).0;
    if |s'.chans| > |s.chans| {
      var mid := State(s.f, s.chans + [FRESH], s.waiters);
      MadeKept(h.due, None, s, mid);
      NewIsFree(s);
      JoinKept(h.due + [None], mid, s');
    } else if |s'.waiters| > |s.waiters| {
      JoinKept(h.due, s, s');
    } else {
      SameKept(h.due, s, s');
    }
  }

  lemma WaiterSound(h: History, ev: Event)
    requires Inv2(h) && (ev.Receive? || ev.Expire? || ev.EndWait?)
    ensures Sound(Next(h, ev).due, Next(h, ev).r.s)
  {
    var s := h.r.s;
    var (s', reply) := Step(s, ev);
    if !reply.Ok? {
      SameKept(h.due, s, s');
    } else if ev.Receive? {
      TakenKept(h.due, s, s', ev.who);
    } else {
      MoveKept(h.due, s, s', ev.who);
    }
  }

  lemma SendSound(h: History, ev: Event)
    requires Inv2(h) && (ev.Submit? || ev.Cancel?)
    ensures Sound(Next(h, ev).due, Next(h, ev).r.s)
  {
    var s, s' := h.r.s, Step(h.r.s, ev).0;
    UnansweredExactly(h);
    if Unanswered(h) && (ev.Submit? ==> SixDigits(ev.pin)) {
      SentKept(h.due, if ev.Submit? then Pin(ev.pin) else Canceled, s, s');
    } else {
      SameKept(h.due, s, s');
    }
  }

  lemma MakeSound(h: History, ev: Event)
    requires Inv2(h) && (ev.Activate? || ev.Rearm? || ev.Deactivate?)
    ensures Sound(Next(h, ev).due, Next(h, ev).r.s)
  {
    var s, s' := h.r.s, Step(h.r.s, ev).0;
    if ev.Activate? {
      MadeKept(h.due, None, s, s');
    } else if ev.Rearm? && |s'.chans| > |s.chans| {
      SendToNew(s.chans, Pin(s.f.submitted));
      MadeKept(h.due, Some(Pin(s.f.submitted)), s, s');
    } else {
      SameKept(h.due, s, s');
    }
  }

  lemma NextKeeps(h: History, ev: Event)
    requires Inv2(h)
    ensures Inv2(Next(h, ev))
  {
    StepKeeps(h.r, ev);
    IdleKept(h, ev);
    ReplayableKept(h.r, ev);
    if ev.BeginWait? { BeginWaitSound(h); }
    else if ev.Receive? || ev.Expire? || ev.EndWait? { WaiterSound(h, ev); }
    else if ev.Submit? || ev.Cancel? { SendSound(h, ev); }
    else { MakeSound(h, ev); }
  }

  lemma {:induction false} PlayKeeps2(h: History, evs: seq<Event>)
    requires Inv2(h)
    ensures Inv2(Play(h, evs))
    decreases |evs|
  {
    if evs != [] {
      NextKeeps(h, evs[0]);
      PlayKeeps2(Next(h, evs[0]), evs[1..]);
    }
  }

  // ------------------------------------------------------------- main results

  ghost predicate Receives(h: History, who: nat) {
    var s := h.r.s;
    var (s', reply) := Step(s, Receive(who));
    who < |s.waiters| && s.waiters[who].stage.Waiting? ==>
      && s.waiters[who].ch < |h.due|
      && (reply.Ok? <==> h.due[s.waiters[who].ch].Some?)
      && (reply.Ok? ==> s'.waiters[who].stage == Got(h.due[s.waiters[who].ch].value))
  }

  lemma ReceivesAt(h: History, who: nat)
    requires Formed(h.r.s) && |h.due| == |h.r.s.chans| && Delivered(h.due, h.r.s, who)
    ensures Receives(h, who)
  {}

  /** In every interleaving a waiting caller can receive exactly when its prompt was
      answered, and receives exactly that: the PIN that was accepted for it, or the
      cancellation that came while it was open. */
  lemma ReceivesExactly(evs: seq<Event>, who: nat)
    ensures Receives(Play(BEGIN, evs), who)
  {
    PlayKeeps2(BEGIN, evs);
    var h := Play(BEGIN, evs);
    assert Delivered(h.due, h.r.s, who);
    ReceivesAt(h, who);
  }

  ghost predicate Answers(h: History, ev: Event)
    requires ev.Submit? || ev.Cancel?
  {
    var s := h.r.s;
    var (s', reply) := Step(s, ev);
    var o := if ev.Submit? then Pin(ev.pin) else Canceled;
    if Unanswered(h) && (ev.Submit? ==> SixDigits(ev.pin))
    then reply.Ok? && s.chans != [] && s'.chans == s.chans[|s.chans| - 1 := Chan([o], 1)]
    else s'.chans == s.chans && (ev.Submit? ==> reply == if SixDigits(ev.pin) then NotWaiting else Invalid)
  }

  lemma AnswersAt(h: History, ev: Event)
    requires ev.Submit? || ev.Cancel?
    requires (Unanswered(h) <==> WouldSend(h.r.s.f)) && Settled(h.r.s) && |h.due| == |h.r.s.chans|
    requires WouldSend(h.r.s.f) ==> h.r.s.f.result == Some(|h.r.s.chans| - 1)
    ensures Answers(h, ev)
  {
    if Unanswered(h) { SendToFresh(h.r.s, if ev.Submit? then Pin(ev.pin) else Canceled); }
  }

  /** Submit and Cancel answer the newest prompt exactly when it is open; otherwise no
      channel changes. */
  lemma AnswersExactly(evs: seq<Event>, ev: Event)
    requires ev.Submit? || ev.Cancel?
    ensures Answers(Play(BEGIN, evs), ev)
  {
    PlayKeeps2(BEGIN, evs);
    UnansweredExactly(Play(BEGIN, evs));
    AnswersAt(Play(BEGIN, evs), ev);
  }

  lemma SendToFresh(s: State, o: Outcome)
    requires s.f.waiting && Settled(s) && !s.f.terminal && s.chans != []
    ensures Send(s.chans, |s.chans| - 1, o) == s.chans[|s.chans| - 1 := Chan([o], 1)]
  {
    assert FRESH.buffer + [o] == [o];
  }

  ghost predicate Joins(h: History) {
    var s := h.r.s;
    var (s', reply) := Step(s, BeginWait);
    if Standing(h.r) && !Free(s.waiters, |s.chans| - 1) then reply.AlreadyWaiting? && s' == s
    else if Standing(h.r) then
      reply.Joined? && s'.chans == s.chans && s'.waiters == s.waiters + [Waiter(|s.chans| - 1, Waiting)]
    else if h.owed then reply.WasCanceled? && s'.chans == s.chans && s'.waiters == s.waiters
    else
      && reply.Joined? && s'.chans == s.chans + [FRESH]
      && s'.waiters == s.waiters + [Waiter(|s.chans|, Waiting)]
  }

  lemma JoinsAt(h: History)
    requires Idle(h) && Consumed(h.r.s) && (Standing(h.r) <==> h.r.s.f.waiting)
    requires h.r.s.f.waiting ==> h.r.s.f.result == Some(|h.r.s.chans| - 1)
    ensures Joins(h)
  {}

  /** A call of Wait joins the standing prompt if nobody has, is told so if somebody
      has, and without one either learns of a cancellation it is owed or opens its own. */
  lemma JoinsExactly(evs: seq<Event>)
    ensures Joins(Play(BEGIN, evs))
  {
    PlayKeeps2(BEGIN, evs);
    UnansweredExactly(Play(BEGIN, evs));
    JoinsAt(Play(BEGIN, evs));
  }

  lemma ReplaysAt(r: Run)
    requires Replay(r) && Replayable(r)
    ensures var (s', reply) := Step(r.s, Rearm);
            && (reply.Ok? <==> !r.off && r.current != [] && r.replays == 0)
            && (reply.Ok? ==> s'.chans == r.s.chans + [Chan([Pin(r.current[|r.current| - 1])], 1)])
  {
    SendToNew(r.s.chans, Pin(r.s.f.submitted));
  }

  /** A PIN is replayed exactly when the prompt is active, one was submitted in this
      activation, and none was replayed in it yet. */
  lemma ReplaysExactly(evs: seq<Event>)
    ensures var r := Play(BEGIN, evs).r; var (s', reply) := Step(r.s, Rearm);
            && (reply.Ok? <==> !r.off && r.current != [] && r.replays == 0)
            && (reply.Ok? ==> s'.chans == r.s.chans + [Chan([Pin(r.current[|r.current| - 1])], 1)])
  {
    PlayKeeps2(BEGIN, evs);
    ReplaysAt(Play(BEGIN, evs).r);
  }
}
