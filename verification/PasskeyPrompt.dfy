/** The passkey prompt: one-slot result channels, waiters that may outlive the
    activation they joined, and a PIN that can be replayed once.

    Every section under the prompt's lock is one event; receiving from a channel
    and timing out are events of their own, so all interleavings are covered.
    Deactivate's trailing call of Cancel takes the lock again and is therefore
    just a later Cancel. */
module PasskeyPrompt {
  import opened Base

  datatype Outcome = Pin(pin: string) | Canceled

  /** A result channel: what it holds and how often it was sent to. */
  datatype Chan = Chan(buffer: seq<Outcome>, sent: nat)

  datatype Stage = Waiting | Got(outcome: Outcome) | TimedOut | Finished

  /** A call of Wait past its first section, holding the channel it took. */
  datatype Waiter = Waiter(ch: nat, stage: Stage)

  datatype Fields = Fields(waiting: bool, terminal: bool, canceled: bool, active: bool, consumed: bool,
                           result: Option<nat>, submitted: string, replayed: bool)

  datatype State = State(f: Fields, chans: seq<Chan>, waiters: seq<Waiter>)

  datatype Event =
    | Activate | Deactivate | Cancel
    | BeginWait
    | Receive(who: nat) | Expire(who: nat) | EndWait(who: nat)
    | Submit(pin: string) | Rearm

  datatype Reply = Ok | Invalid | NotWaiting | AlreadyWaiting | WasCanceled | Joined | Refused

  predicate SixDigits(pin: string) { |pin| == 6 && forall i :: 0 <= i < 6 ==> '0' <= pin[i] <= '9' }

  const FRESH := Chan([], 0)

  /** A send under the lock; on a full channel it would block for ever. */
  function Send(chans: seq<Chan>, ch: nat, o: Outcome): seq<Chan> {
    if ch < |chans| then chans[ch := Chan(chans[ch].buffer + [o], chans[ch].sent + 1)] else chans
  }

  predicate WouldSend(f: Fields) { f.waiting && f.result.Some? && !f.terminal }

  function Step(s: State, ev: Event): (State, Reply) {
    var f := s.f;
    match ev
    case Activate =>
      (State(f.(active := true, waiting := true, consumed := false, terminal := false, submitted := "",
          replayed := false,
                result := Some(|s.chans|)), s.chans + [FRESH], s.waiters), Ok)
    case Deactivate =>
      var g := f.(active := false, submitted := "", replayed := true);
      (s.(f := if f.waiting && !f.consumed then g.(waiting := false, canceled := true, result := None,
          terminal := true) else g), Ok)
    case BeginWait =>
      if f.waiting then
        if f.consumed || f.result.None? then (s, AlreadyWaiting)
        else (s.(f := f.(consumed := true), waiters := s.waiters + [Waiter(f.result.value, Waiting)]), Joined)
      else if f.canceled then (s.(f := f.(canceled := false)), WasCanceled)
      else (State(f.(waiting := true, consumed := true, terminal := false, result := Some(|s.chans|)),
                  s.chans + [FRESH], s.waiters + [Waiter(|s.chans|, Waiting)]), Joined)
    case Receive(who) =>
      if who < |s.waiters| && s.waiters[who].stage.Waiting? && s.waiters[who].ch < |s.chans|
         && s.chans[s.waiters[who].ch].buffer != [] then
        var c := s.waiters[who].ch;
        (s.(chans := s.chans[c := s.chans[c].(buffer := s.chans[c].buffer[1..])],
            waiters := s.waiters[who := Waiter(c, Got(s.chans[c].buffer[0]))]), Ok)
      else (s, Refused)
    case Expire(who) =>
      if who < |s.waiters| && s.waiters[who].stage.Waiting? then
        (s.(waiters := s.waiters[who := s.waiters[who].(stage := TimedOut)]), Ok)
      else (s, Refused)
    case EndWait(who) =>
      if who < |s.waiters| && (s.waiters[who].stage.Got? || s.waiters[who].stage.TimedOut?) then
        (s.(f := f.(waiting := false, terminal := true, result := None),
            waiters := s.waiters[who := s.waiters[who].(stage := Finished)]), Ok)
      else (s, Refused)
    case Submit(pin) =>
      if !SixDigits(pin) then (s, Invalid)
      else if !WouldSend(f) then (s, NotWaiting)
      else (s.(f := f.(terminal := true, submitted := pin), chans := Send(s.chans, f.result.value, Pin(pin))), Ok)
    case Rearm =>
      if !f.active || f.submitted == "" || f.replayed then (s, Refused)
      else (s.(f := f.(waiting := true, consumed := false, terminal := true, result := Some(|s.chans|),
          replayed := true),
               chans := Send(s.chans + [FRESH], |s.chans|, Pin(f.submitted))), Ok)
    case Cancel =>
      if WouldSend(f) then (s.(f := f.(terminal := true), chans := Send(s.chans, f.result.value, Canceled)), Ok)
      else (s.(f := f.(canceled := f.canceled || !f.terminal)), Ok)
  }

  /** Channel numbers refer to channels that exist. */
  predicate Formed(s: State) {
    && (s.f.result.Some? ==> s.f.result.value < |s.chans|)
    && (forall i :: 0 <= i < |s.waiters| ==> s.waiters[i].ch < |s.chans|)
  }

  // --------------------------------------------------------------- history

  /** A PIN accepted by Submit, and the activation it was submitted in. */
  datatype Given = Given(activation: nat, pin: string)

  /** A run: the PINs submitted since the last Activate, how often one was
      replayed since then, whether the prompt is deactivated (or was never
      activated); how many activations there were, the channel the last one made,
      the activation each channel was made in and each waiter joined in, every PIN
      given; and, since the newest channel was made, the waiters that ended and
      whether a Deactivate came before anybody joined it. */
  datatype Run = Run(s: State, current: seq<string>, replays: nat, off: bool,
                     activation: nat, opening: Option<nat>, madeIn: seq<nat>, joinedIn: seq<nat>, given: set<Given>,
                     ended: set<nat>, withdrawn: bool)

  predicate Takes(waiters: seq<Waiter>, i: int, c: int) { 0 <= i < |waiters| && waiters[i].ch == c }

  /** Nobody took the channel. */
  predicate Free(waiters: seq<Waiter>, c: int) { forall i :: 0 <= i < |waiters| ==> !Takes(waiters, i, c) }

  function Advance(r: Run, ev: Event): Run {
    var (s', reply) := Step(r.s, ev);
    var activation := if ev.Activate? then r.activation + 1 else r.activation;
    var made := |s'.chans| > |r.s.chans|;
    Run(s',
        if ev.Activate? then [] else if ev.Submit? && reply.Ok? then r.current + [ev.pin] else r.current,
        if ev.Activate? then 0 else if ev.Rearm? && reply.Ok? then r.replays + 1 else r.replays,
        if ev.Activate? then false else r.off || ev.Deactivate?,
        activation,
        if ev.Activate? then Some(|r.s.chans|) else r.opening,
        if made then r.madeIn + [activation] else r.madeIn,
        if |s'.waiters| > |r.s.waiters| then r.joinedIn + [activation] else r.joinedIn,
        if ev.Submit? && reply.Ok? then r.given + {Given(activation, ev.pin)} else r.given,
        if made then {} else if ev.EndWait? && reply.Ok? then r.ended + {ev.who} else r.ended,
        !made && (r.withdrawn || (ev.Deactivate? && Free(r.s.waiters, |r.s.chans| - 1))))
  }

  const NEW := State(Fields(false, false, false, false, false, None, "", false), [], [])

  const START := Run(NEW, [], 0, true, 0, None, [], [], {}, {}, false)

  // -------------------------------------------------------------- invariant

  /** At most one outcome, and a PIN only if it was given in that activation. */
  predicate GoodChan(given: set<Given>, activation: nat, c: Chan) {
    && c.sent <= 1 && |c.buffer| <= c.sent
    && (forall o :: o in c.buffer && o.Pin? ==> Given(activation, o.pin) in given)
  }

  predicate GoodWaiter(given: set<Given>, activation: nat, w: Waiter) {
    w.stage.Got? && w.stage.outcome.Pin? ==> Given(activation, w.stage.outcome.pin) in given
  }

  ghost predicate AllGood(given: set<Given>, madeIn: seq<nat>, chans: seq<Chan>) {
    |madeIn| == |chans| && forall i :: 0 <= i < |madeIn| ==> GoodChan(given, madeIn[i], chans[i])
  }

  ghost predicate GoodChans(r: Run) { AllGood(r.given, r.madeIn, r.s.chans) }

  ghost predicate GoodWaiters(r: Run) {
    |r.joinedIn| == |r.s.waiters| && forall i :: 0 <= i < |r.joinedIn| ==>
        GoodWaiter(r.given, r.joinedIn[i], r.s.waiters[i])
  }

  predicate SameDate(w: Waiter, joined: nat, madeIn: seq<nat>) { w.ch < |madeIn| && joined == madeIn[w.ch] }

  /** A waiter joined in the activation its channel was made in. */
  ghost predicate AllJoined(waiters: seq<Waiter>, joinedIn: seq<nat>, madeIn: seq<nat>) {
    |joinedIn| == |waiters| && forall i :: 0 <= i < |joinedIn| ==> SameDate(waiters[i], joinedIn[i], madeIn)
  }

  /** The newest channel was made in this activation, the others no later. */
  ghost predicate Made(madeIn: seq<nat>, activation: nat) {
    && (forall c :: 0 <= c < |madeIn| ==> madeIn[c] <= activation)
    && (madeIn != [] ==> madeIn[|madeIn| - 1] == activation)
  }

  ghost predicate Dated(r: Run) {
    && |r.madeIn| == |r.s.chans| && AllJoined(r.s.waiters, r.joinedIn, r.madeIn) && Made(r.madeIn, r.activation)
    && (forall w :: w in r.ended ==> w < |r.s.waiters|)
  }

  /** A channel has at most one waiter. */
  ghost predicate OneEach(waiters: seq<Waiter>) {
    forall i, j, c :: Takes(waiters, i, c) && Takes(waiters, j, c) ==> i == j
  }

  /** The current channel is the newest, and the prompt waits on it exactly until a
      waiter ends or it is withdrawn. */
  predicate Pending(r: Run) {
    && (r.s.f.waiting ==> r.s.f.result == Some(|r.s.chans| - 1))
    && (r.s.f.waiting <==> r.s.chans != [] && !r.withdrawn && r.ended == {})
  }

  /** It is settled exactly once it was sent to. */
  predicate Settled(s: State) {
    s.f.waiting && s.chans != [] ==>
      && (s.f.terminal <==> s.chans[|s.chans| - 1].sent > 0)
      && (!s.f.terminal ==> s.chans[|s.chans| - 1] == FRESH)
  }

  /** It is consumed exactly if somebody took it. */
  predicate Consumed(s: State) { s.f.waiting ==> (s.f.consumed <==> !Free(s.waiters, |s.chans| - 1)) }

  predicate Replay(r: Run) {
    var f := r.s.f;
    && r.off == !f.active
    && r.replays <= 1 && (r.replays == 1 ==> f.replayed)
    && (f.submitted != "" ==> Given(r.activation, f.submitted) in r.given)
    && (!r.off ==> f.submitted == if r.current == [] then "" else r.current[|r.current| - 1])
  }

  ghost predicate Inv(r: Run) {
    Formed(r.s) && GoodChans(r) && GoodWaiters(r) && Dated(r) && OneEach(r.s.waiters)
    && Pending(r) && Settled(r.s) && Consumed(r.s) && Replay(r)
  }

  lemma ReplayKept(r: Run, ev: Event)
    requires Replay(r)
    ensures Replay(Advance(r, ev))
  {}

  lemma FormedKept(s: State, ev: Event)
    requires Formed(s)
    ensures Formed(Step(s, ev).0)
  {}

  lemma MakeGood(given: set<Given>, madeIn: seq<nat>, chans: seq<Chan>, activation: nat)
    requires AllGood(given, madeIn, chans)
    ensures AllGood(given, madeIn + [activation], chans + [FRESH])
  {}

  lemma SendGood(given: set<Given>, madeIn: seq<nat>, chans: seq<Chan>, ch: nat, o: Outcome)
    requires AllGood(given, madeIn, chans) && ch < |chans| && chans[ch] == FRESH
    requires o.Pin? ==> Given(madeIn[ch], o.pin) in given
    ensures AllGood(given, madeIn, Send(chans, ch, o))
  {
    assert FRESH.buffer + [o] == [o];
  }

  lemma TakeGood(given: set<Given>, madeIn: seq<nat>, chans: seq<Chan>, ch: nat)
    requires AllGood(given, madeIn, chans) && ch < |chans| && chans[ch].buffer != []
    ensures AllGood(given, madeIn, chans[ch := chans[ch].(buffer := chans[ch].buffer[1..])])
  {
    assert GoodChan(given, madeIn[ch], chans[ch]);
  }

  lemma MoreGiven(given: set<Given>, more: Given, madeIn: seq<nat>, chans: seq<Chan>)
    requires AllGood(given, madeIn, chans)
    ensures AllGood(given + {more}, madeIn, chans)
  {
    forall i | 0 <= i < |madeIn| ensures GoodChan(given + {more}, madeIn[i], chans[i]) {
      assert GoodChan(given, madeIn[i], chans[i]);
    }
  }

  lemma SubmitChans(r: Run, pin: string)
    requires GoodChans(r) && Made(r.madeIn, r.activation) && Pending(r) && Settled(r.s) && WouldSend(r.s.f)
    ensures AllGood(r.given + {Given(r.activation, pin)}, r.madeIn, Send(r.s.chans, r.s.f.result.value, Pin(pin)))
    ensures AllGood(r.given, r.madeIn, Send(r.s.chans, r.s.f.result.value, Canceled))
  {
    var n := |r.s.chans|;
    MoreGiven(r.given, Given(r.activation, pin), r.madeIn, r.s.chans);
    SendGood(r.given + {Given(r.activation, pin)}, r.madeIn, r.s.chans, n - 1, Pin(pin));
    SendGood(r.given, r.madeIn, r.s.chans, n - 1, Canceled);
  }

  lemma RearmChans(r: Run)
    requires GoodChans(r) && Replay(r) && r.s.f.submitted != ""
    ensures AllGood(r.given, r.madeIn + [r.activation], Send(r.s.chans + [FRESH], |r.s.chans|, Pin(r.s.f.submitted)))
  {
    MakeGood(r.given, r.madeIn, r.s.chans, r.activation);
    SendGood(r.given, r.madeIn + [r.activation], r.s.chans + [FRESH], |r.s.chans|, Pin(r.s.f.submitted));
  }

  lemma ActivateChans(r: Run)
    requires GoodChans(r)
    ensures GoodChans(Advance(r, Activate))
  {
    MakeGood(r.given, r.madeIn, r.s.chans, r.activation + 1);
  }

  lemma BeginWaitChans(r: Run)
    requires GoodChans(r)
    ensures GoodChans(Advance(r, BeginWait))
  {
    MakeGood(r.given, r.madeIn, r.s.chans, r.activation);
  }

  lemma ReceiveChans(r: Run, who: nat)
    requires GoodChans(r)
    ensures GoodChans(Advance(r, Receive(who)))
  {
    if Step(r.s, Receive(who)).1.Ok? { TakeGood(r.given, r.madeIn, r.s.chans, r.s.waiters[who].ch); }
  }

  lemma SendChans(r: Run, ev: Event)
    requires GoodChans(r) && Made(r.madeIn, r.activation) && Pending(r) && Settled(r.s) && (ev.Submit? || ev.Cancel?)
    ensures GoodChans(Advance(r, ev))
  {
    if WouldSend(r.s.f) { SubmitChans(r, if ev.Submit? then ev.pin else ""); }
  }

  lemma RearmedChans(r: Run)
    requires GoodChans(r) && Replay(r)
    ensures GoodChans(Advance(r, Rearm))
  {
    if r.s.f.submitted != "" { RearmChans(r); }
  }

  lemma ChansKept(r: Run, ev: Event)
    requires GoodChans(r) && Made(r.madeIn, r.activation) && Pending(r) && Settled(r.s) && Replay(r)
    ensures GoodChans(Advance(r, ev))
  {
    match ev
    case Activate => ActivateChans(r);
    case BeginWait => BeginWaitChans(r);
    case Submit(_) => SendChans(r, ev);
    case Cancel => SendChans(r, ev);
    case Rearm => RearmedChans(r);
    case Receive(who) => ReceiveChans(r, who);
    case Deactivate =>
    case Expire(_) =>
    case EndWait(_) =>
  }

  lemma ReceiveWaiters(r: Run, who: nat)
    requires GoodChans(r) && GoodWaiters(r) && AllJoined(r.s.waiters, r.joinedIn, r.madeIn)
    ensures GoodWaiters(Advance(r, Receive(who)))
  {
    var r' := Advance(r, Receive(who));
    forall i | 0 <= i < |r'.joinedIn| ensures GoodWaiter(r'.given, r'.joinedIn[i], r'.s.waiters[i]) {
      assert GoodWaiter(r.given, r.joinedIn[i], r.s.waiters[i]);
      assert SameDate(r.s.waiters[i], r.joinedIn[i], r.madeIn);
      assert GoodChan(r.given, r.madeIn[r.s.waiters[i].ch], r.s.chans[r.s.waiters[i].ch]);
    }
  }

  lemma OtherWaiters(r: Run, ev: Event)
    requires GoodWaiters(r) && !ev.Receive?
    ensures GoodWaiters(Advance(r, ev))
  {
    var r' := Advance(r, ev);
    forall i | 0 <= i < |r'.joinedIn| ensures GoodWaiter(r'.given, r'.joinedIn[i], r'.s.waiters[i]) {
      if i < |r.joinedIn| { assert GoodWaiter(r.given, r.joinedIn[i], r.s.waiters[i]); }
    }
  }

  lemma WaitersKept(r: Run, ev: Event)
    requires GoodChans(r) && GoodWaiters(r) && AllJoined(r.s.waiters, r.joinedIn, r.madeIn)
    ensures GoodWaiters(Advance(r, ev))
  {
    if ev.Receive? { ReceiveWaiters(r, ev.who); } else { OtherWaiters(r, ev); }
  }

  /** Waiters stay with the channels they took; a new one takes the newest. */
  predicate Grows(s: State, s': State) {
    && |s.chans| <= |s'.chans| <= |s.chans| + 1 && |s.waiters| <= |s'.waiters| <= |s.waiters| + 1
    && (forall i :: 0 <= i < |s.waiters| ==> s'.waiters[i].ch == s.waiters[i].ch)
    && (|s'.waiters| > |s.waiters| ==> s'.waiters[|s.waiters|].ch == |s'.chans| - 1)
  }

  lemma StepGrows(s: State, ev: Event)
    requires Formed(s) && (s.f.waiting ==> s.f.result == Some(|s.chans| - 1))
    ensures Grows(s, Step(s, ev).0)
    ensures |Step(s, ev).0.waiters| > |s.waiters| ==> |Step(s, ev).0.chans| > 0
    ensures ev.Activate? ==> |Step(s, ev).0.chans| > |s.chans|
  {}

  lemma Rejoined(waiters: seq<Waiter>, waiters': seq<Waiter>, joinedIn: seq<nat>, madeIn: seq<nat>, madeIn': seq<nat>)
    requires AllJoined(waiters, joinedIn, madeIn) && madeIn <= madeIn' && |waiters'| == |waiters|
    requires forall i :: 0 <= i < |waiters| ==> waiters'[i].ch == waiters[i].ch
    ensures AllJoined(waiters', joinedIn, madeIn')
  {
    forall i | 0 <= i < |joinedIn| ensures SameDate(waiters'[i], joinedIn[i], madeIn') {
      assert SameDate(waiters[i], joinedIn[i], madeIn);
    }
  }

  lemma JoinedNew(waiters: seq<Waiter>, w: Waiter, joinedIn: seq<nat>, madeIn: seq<nat>, activation: nat)
    requires AllJoined(waiters, joinedIn, madeIn) && SameDate(w, activation, madeIn)
    ensures AllJoined(waiters + [w], joinedIn + [activation], madeIn)
  {}

  lemma JoinedFrom(s: State, s': State, joinedIn: seq<nat>, madeIn: seq<nat>, activation: nat)
    requires Grows(s, s') && AllJoined(s.waiters, joinedIn, madeIn) && |madeIn| == |s.chans|
    requires |s'.chans| == |s.chans| && |s'.waiters| > |s.waiters| ==>
               madeIn != [] && madeIn[|madeIn| - 1] == activation
    ensures var made := if |s'.chans| > |s.chans| then madeIn + [activation] else madeIn;
            AllJoined(s'.waiters, if |s'.waiters| > |s.waiters| then joinedIn + [activation] else joinedIn, made)
  {
    var made := if |s'.chans| > |s.chans| then madeIn + [activation] else madeIn;
    var n := |s.waiters|;
    Rejoined(s.waiters, s'.waiters[..n], joinedIn, madeIn, made);
    if |s'.waiters| > n {
      JoinedNew(s'.waiters[..n], s'.waiters[n], joinedIn, made, activation);
      assert s'.waiters == s'.waiters[..n] + [s'.waiters[n]];
    } else {
      assert s'.waiters[..n] == s'.waiters;
    }
  }

  lemma MadeFrom(madeIn: seq<nat>, activation: nat)
    requires Made(madeIn, activation)
    ensures Made(madeIn + [activation], activation) && Made(madeIn + [activation + 1], activation + 1)
  {}

  lemma EndedKept(r: Run, ev: Event)
    requires forall w :: w in r.ended ==> w < |r.s.waiters|
    ensures var r' := Advance(r, ev); forall w :: w in r'.ended ==> w < |r'.s.waiters|
  {}

  lemma DatedKept(r: Run, ev: Event)
    requires Formed(r.s) && Dated(r) && Pending(r)
    ensures Dated(Advance(r, ev))
  {
    StepGrows(r.s, ev);
    var r' := Advance(r, ev);
    JoinedFrom(r.s, r'.s, r.joinedIn, r.madeIn, r'.activation);
    MadeFrom(r.madeIn, r.activation);
    EndedKept(r, ev);
  }

  lemma OneEachKept(r: Run, ev: Event)
    requires Inv(r)
    ensures OneEach(Step(r.s, ev).0.waiters)
  {
    var s, s' := r.s, Step(r.s, ev).0;
    forall i, j, c | Takes(s'.waiters, i, c) && Takes(s'.waiters, j, c) ensures i == j {
      if i < |s.waiters| { assert Takes(s.waiters, i, c); }
      if j < |s.waiters| { assert Takes(s.waiters, j, c); }
    }
  }

  /** Waiters that progress stay with the channels they took. */
  lemma FreeKept(s: State, ev: Event)
    requires !ev.BeginWait?
    ensures forall c :: Free(Step(s, ev).0.waiters, c) <==> Free(s.waiters, c)
  {
    var s' := Step(s, ev).0;
    forall c ensures Free(s'.waiters, c) <==> Free(s.waiters, c) {
      assert |s'.waiters| == |s.waiters| && forall i :: 0 <= i < |s.waiters| ==> s'.waiters[i].ch == s.waiters[i].ch;
      assert forall i :: 0 <= i < |s.waiters| ==> (Takes(s'.waiters, i, c) <==> Takes(s.waiters, i, c));
    }
  }

  /** A channel that does not exist yet is free. */
  lemma NewIsFree(s: State)
    requires Formed(s)
    ensures Free(s.waiters, |s.chans|)
  {}

  lemma ConsumedKept(s: State, ev: Event)
    requires Formed(s) && Consumed(s) && (s.f.waiting ==> s.f.result == Some(|s.chans| - 1))
    ensures Consumed(Step(s, ev).0)
  {
    NewIsFree(s);
    if ev.BeginWait? {
      var s' := Step(s, ev).0;
      if |s'.waiters| > |s.waiters| { assert Takes(s'.waiters, |s.waiters|, |s'.chans| - 1); }
    } else {
      FreeKept(s, ev);
    }
  }

  lemma SettledKept(s: State, ev: Event)
    requires Settled(s) && (s.f.waiting ==> s.f.result == Some(|s.chans| - 1))
    ensures Settled(Step(s, ev).0)
  {}

  lemma PendingKept(r: Run, ev: Event)
    requires Pending(r) && Consumed(r.s)
    ensures Pending(Advance(r, ev))
  {}

  lemma StepKeeps(r: Run, ev: Event)
    requires Inv(r)
    ensures Inv(Advance(r, ev))
  {
    ReplayKept(r, ev); FormedKept(r.s, ev); ChansKept(r, ev); DatedKept(r, ev); WaitersKept(r, ev);
    OneEachKept(r, ev); PendingKept(r, ev); SettledKept(r.s, ev); ConsumedKept(r.s, ev);
  }

  // ------------------------------------------------------------ main results

  function Play(r: Run, evs: seq<Event>): Run
    decreases |evs|
  {
    if evs == [] then r else Play(Advance(r, evs[0]), evs[1..])
  }

  lemma {:induction false} PlayKeeps(r: Run, evs: seq<Event>)
    requires Inv(r)
    ensures Inv(Play(r, evs))
    decreases |evs|
  {
    if evs != [] {
      StepKeeps(r, evs[0]);
      PlayKeeps(Advance(r, evs[0]), evs[1..]);
    }
  }

  lemma Reached(evs: seq<Event>)
    ensures Inv(Play(START, evs))
  {
    PlayKeeps(START, evs);
  }

  /** In every interleaving, each result channel is sent to at most once, so the
      next send under the lock finds its channel empty and cannot block; a channel
      has at most one waiter; and a PIN a waiter got was submitted in the very
      activation the waiter joined in. */
  lemma NeverBlocks(evs: seq<Event>)
    ensures var r := Play(START, evs); var s := r.s;
            && (forall i :: 0 <= i < |s.chans| ==> s.chans[i].sent <= 1)
            && (WouldSend(s.f) ==> s.f.result.value < |s.chans| && s.chans[s.f.result.value] == FRESH)
            && (forall i, j :: 0 <= i < j < |s.waiters| ==> s.waiters[i].ch != s.waiters[j].ch)
            && |r.joinedIn| == |s.waiters|
            && (forall i :: 0 <= i < |s.waiters| && s.waiters[i].stage.Got? && s.waiters[i].stage.outcome.Pin? ==>
                  Given(r.joinedIn[i], s.waiters[i].stage.outcome.pin) in r.given)
  {
    Reached(evs);
    var r := Play(START, evs);
    SentOnce(r);
    OneWaiterEach(r.s.waiters);
    OwnPin(r);
  }

  lemma OwnPin(r: Run)
    requires GoodWaiters(r)
    ensures forall i :: 0 <= i < |r.s.waiters| && r.s.waiters[i].stage.Got? && r.s.waiters[i].stage.outcome.Pin? ==>
              Given(r.joinedIn[i], r.s.waiters[i].stage.outcome.pin) in r.given
  {
    forall i | 0 <= i < |r.s.waiters| ensures GoodWaiter(r.given, r.joinedIn[i], r.s.waiters[i]) {}
  }

  lemma SentOnce(r: Run)
    requires GoodChans(r)
    ensures forall i :: 0 <= i < |r.s.chans| ==> r.s.chans[i].sent <= 1
  {
    forall i | 0 <= i < |r.s.chans| ensures r.s.chans[i].sent <= 1 {
      assert GoodChan(r.given, r.madeIn[i], r.s.chans[i]);
    }
  }

  lemma OneWaiterEach(waiters: seq<Waiter>)
    requires OneEach(waiters)
    ensures forall i, j :: 0 <= i < j < |waiters| ==> waiters[i].ch != waiters[j].ch
  {
    forall i, j | 0 <= i < j < |waiters| ensures waiters[i].ch != waiters[j].ch {
      var c, d := waiters[i].ch, waiters[j].ch;
      assert Takes(waiters, i, c) && Takes(waiters, j, d);
    }
  }

  /** A replay happens at most once per activation, never after Deactivate, and
      replays the PIN last submitted in this activation. */
  lemma ReplayOnce(evs: seq<Event>)
    ensures var r := Play(START, evs); var (s', reply) := Step(r.s, Rearm);
            && r.replays <= 1
            && (reply.Ok? ==>
                  && !r.off && r.replays == 0
                  && r.current != [] && s'.chans == r.s.chans + [Chan([Pin(r.current[|r.current| - 1])], 1)])
  {
    Reached(evs);
    var r := Play(START, evs);
    SendToNew(r.s.chans, Pin(r.s.f.submitted));
  }

  lemma SendToNew(chans: seq<Chan>, o: Outcome)
    ensures Send(chans + [FRESH], |chans|, o) == chans + [Chan([o], 1)]
  {
    assert FRESH.buffer + [o] == [o];
  }

  /** Exactly when a six-digit PIN is accepted: there is a newest channel, nothing
      was sent to it, no Deactivate withdrew it before anybody joined, and no waiter
      at all, its own or another's, ended since it was made. */
  lemma AcceptedExactly(evs: seq<Event>, pin: string)
    requires SixDigits(pin)
    ensures var r := Play(START, evs);
            Step(r.s, Submit(pin)).1.Ok? <==>
              |r.s.chans| > 0 && r.s.chans[|r.s.chans| - 1].sent == 0 && !r.withdrawn && r.ended == {}
  {
    Reached(evs);
  }

  /** The channel of the last activation is the newest, nothing was sent to it, it
      was not withdrawn, and no waiter of this activation has ended. */
  ghost predicate Undisturbed(r: Run) {
    && r.s.chans != [] && r.opening == Some(|r.s.chans| - 1) && r.s.chans[|r.s.chans| - 1].sent == 0 && !r.withdrawn
    && forall w :: w in r.ended ==> w < |r.joinedIn| && r.joinedIn[w] != r.activation
  }

  /** In an activation otherwise undisturbed, a PIN is refused if and only if a
      waiter left over from an earlier activation ended since. */
  lemma StaleWaiterEndsPrompt(evs: seq<Event>, pin: string)
    requires SixDigits(pin) && Undisturbed(Play(START, evs))
    ensures var r := Play(START, evs);
            !Step(r.s, Submit(pin)).1.Ok? <==> exists w :: w in r.ended && r.joinedIn[w] < r.activation
  {
    Reached(evs);
    AcceptedExactly(evs, pin);
    EndedEarlier(Play(START, evs));
  }

  lemma EndedEarlier(r: Run)
    requires Dated(r) && Undisturbed(r)
    ensures r.ended == {} <==> !exists w :: w in r.ended && r.joinedIn[w] < r.activation
  {
    if w :| w in r.ended { assert SameDate(r.s.waiters[w], r.joinedIn[w], r.madeIn); }
  }

  /** Such a run: the first activation's waiter times out, the prompt is activated
      again, and the old waiter's last section makes it refuse a PIN it would have
      accepted just before. */
  lemma StaleWaiterWitness(pin: string)
    requires SixDigits(pin)
    ensures var s := Step(Step(Step(Step(NEW, Activate).0, BeginWait).0, Expire(0)).0, Activate).0;
            var s' := Step(s, EndWait(0)).0;
            && s.f.active && s.f.submitted == "" && Step(s, Submit(pin)).1 == Ok
            && s'.f.active && s'.f.submitted == "" && Step(s', Submit(pin)).1 == NotWaiting
  {
    var s1 := Step(NEW, Activate).0;
    assert s1.chans == [FRESH] && s1.waiters == [];
    var s2 := Step(s1, BeginWait).0;
    assert s2.waiters == [Waiter(0, Waiting)] && s2.chans == [FRESH];
    var s3 := Step(s2, Expire(0)).0;
    assert s3.waiters == [Waiter(0, TimedOut)];
    var s4 := Step(s3, Activate).0;
    assert s4.chans == [FRESH, FRESH] && s4.f.result == Some(1);
  }

  // ------------------------------------------------------------- the prompt

  class Prompt {
    var waiting: bool
    var terminal: bool
    var canceled: bool
    var active: bool
    var consumed: bool
    var result: Option<nat>
    var submitted: string
    var replayed: bool
    var chans: seq<Chan>
    var waiters: seq<Waiter>

    ghost function View(): State
      reads this
    {
      State(Fields(waiting, terminal, canceled, active, consumed, result, submitted, replayed), chans, waiters)
    }

    constructor ()
      ensures View() == NEW
    {
      waiting, terminal, canceled, active, consumed := false, false, false, false, false;
      result, submitted, replayed := None, "", false;
      chans, waiters := [], [];
    }

    method MakeChannel() returns (ch: nat)
      modifies this`chans, this`result
      ensures ch == |old(chans)| && chans == old(chans) + [FRESH] && result == Some(ch)
    {
      ch := |chans|;
      chans := chans + [FRESH];
      result := Some(ch);
    }

    method SendTo(ch: nat, o: Outcome)
      requires ch < |chans|
      modifies this`chans
      ensures chans == Send(old(chans), ch, o)
    {
      chans := chans[ch := Chan(chans[ch].buffer + [o], chans[ch].sent + 1)];
    }

    method Activate()
      requires Formed(View())
      modifies this
      ensures View() == Step(old(View()), Event.Activate).0
    {
      active, waiting, consumed, terminal := true, true, false, false;
      submitted, replayed := "", false;
      var ch := MakeChannel();
    }

    method Deactivate()
      requires Formed(View())
      modifies this
      ensures View() == Step(old(View()), Event.Deactivate).0
    {
      active, submitted, replayed := false, "", true;
      if waiting && !consumed {
        waiting, canceled := false, true;
        result, terminal := None, true;
      }
    }

    /** Wait's first section. */
    method BeginWait() returns (reply: Reply)
      requires Formed(View()) && (waiting ==> result.Some?)
      modifies this
      ensures (View(), reply) == Step(old(View()), Event.BeginWait)
    {
      if waiting {
        if consumed { return AlreadyWaiting; }
        consumed := true;
        waiters := waiters + [Waiter(result.value, Waiting)];
        return Joined;
      }
      if canceled {
        canceled := false;
        return WasCanceled;
      }
      waiting, consumed, terminal := true, true, false;
      var ch := MakeChannel();
      waiters := waiters + [Waiter(ch, Waiting)];
      return Joined;
    }

    /** Wait's last section. */
    method EndWait(who: nat)
      requires Formed(View()) && who < |waiters| && (waiters[who].stage.Got? || waiters[who].stage.TimedOut?)
      modifies this
      ensures View() == Step(old(View()), Event.EndWait(who)).0
    {
      waiting, terminal, result := false, true, None;
      waiters := waiters[who := waiters[who].(stage := Finished)];
    }

    method Submit(pin: string) returns (reply: Reply)
      requires Formed(View())
      modifies this
      ensures (View(), reply) == Step(old(View()), Event.Submit(pin))
    {
      if |pin| != 6 { return Invalid; }
      var i := 0;
      while i < 6
        invariant 0 <= i <= 6 && forall k :: 0 <= k < i ==> '0' <= pin[k] <= '9'
        invariant View() == old(View())
      {
        if pin[i] < '0' || pin[i] > '9' { return Invalid; }
        i := i + 1;
      }
      if !waiting || result.None? || terminal { return NotWaiting; }
      terminal, submitted := true, pin;
      SendTo(result.value, Pin(pin));
      return Ok;
    }

    method RearmSubmitted() returns (ok: bool)
      requires Formed(View())
      modifies this
      ensures var (s', reply) := Step(old(View()), Rearm); View() == s' && ok == reply.Ok?
    {
      if !active || submitted == "" || replayed { return false; }
      waiting, consumed, terminal := true, false, true;
      var ch := MakeChannel();
      SendTo(ch, Pin(submitted));
      replayed := true;
      return true;
    }

    method CancelPrompt()
      requires Formed(View())
      modifies this
      ensures View() == Step(old(View()), Cancel).0
    {
      if waiting && result.Some? && !terminal {
        terminal := true;
        SendTo(result.value, Canceled);
      } else if !terminal {
        canceled := true;
      }
    }
  }
}
