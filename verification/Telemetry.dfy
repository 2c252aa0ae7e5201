/** Publishing telemetry snapshots to bounded subscribers.

    The store's lock covers a whole publication and a whole cancellation, but a
    reader takes frames from its channel without the lock.  So every channel
    operation is one event: publications offer to one subscriber at a time and
    cancellations discard one frame at a time, and receptions come in between.
    The state keeps the whole history of snapshots so that what a subscriber saw
    can be compared with what was published. */
module Telemetry {
  const CAPACITY := 128

  /** `start` is the position of the initial snapshot in the history, `at` the
      positions of the received frames, `head` that of the next frame in the
      channel. */
  datatype Sub<S> = Sub(start: nat, received: seq<S>, at: seq<nat>, head: nat, queue: seq<S>,
                        registered: bool, closes: nat, cancelled: bool)

  /** Who holds the lock: nobody, a publication that still has subscribers to
      serve, or the cancellation of one subscriber. */
  datatype Lock = Free | Publishing(pending: set<nat>) | Cancelling(whom: nat)

  /** The last element of `history` is the store's current snapshot. */
  datatype State<S> = State(history: seq<S>, subs: seq<Sub<S>>, lock: Lock)

  datatype Event<S> =
    | Publish(snap: S) | Offer(to: nat)
    | Subscribe
    | Receive(who: nat)
    | Cancel(who: nat) | Drain

  function NewSub<S>(start: nat): Sub<S> { Sub(start, [], [], start + 1, [], true, 0, false) }

  /** A frame offered to a full channel closes it instead. */
  function Enqueue<S>(sub: Sub<S>, snap: S): Sub<S> {
    if !sub.registered then sub
    else if |sub.queue| < CAPACITY then sub.(queue := sub.queue + [snap])
    else sub.(registered := false, closes := sub.closes + 1)
  }

  function Deliver<S>(sub: Sub<S>): Sub<S> {
    if sub.queue == [] then sub
    else sub.(received := sub.received + [sub.queue[0]], at := sub.at + [sub.head],
              head := sub.head + 1, queue := sub.queue[1..])
  }

  function Discard<S>(sub: Sub<S>): Sub<S>
    requires sub.queue != []
  {
    sub.(head := sub.head + 1, queue := sub.queue[1..])
  }

  function Registered<S>(subs: seq<Sub<S>>): set<nat> { set i: nat | i < |subs| && subs[i].registered }

  function Serving(pending: set<nat>): Lock { if pending == {} then Free else Publishing(pending) }

  /** An event that is not enabled changes nothing. */
  function Step<S>(s: State<S>, ev: Event<S>): State<S> {
    match ev
    case Publish(snap) =>
      if s.lock.Free? then State(s.history + [snap], s.subs, Serving(Registered(s.subs))) else s
    case Offer(to) =>
      if s.lock.Publishing? && to in s.lock.pending && to < |s.subs| && s.history != [] then
        s.(subs := s.subs[to := Enqueue(s.subs[to], s.history[|s.history| - 1])],
            lock := Serving(s.lock.pending - {to}))
      else s
    case Subscribe =>
      if s.lock.Free? && s.history != [] then s.(subs := s.subs + [NewSub(|s.history| - 1)]) else s
    case Receive(who) => if who < |s.subs| then s.(subs := s.subs[who := Deliver(s.subs[who])]) else s
    case Cancel(who) =>
      if s.lock.Free? && who < |s.subs| && s.subs[who].registered then
        s.(subs := s.subs[who := s.subs[who].(registered := false, cancelled := true)], lock := Cancelling(who))
      else s
    case Drain =>
      if s.lock.Cancelling? && s.lock.whom < |s.subs| then
        var i := s.lock.whom;
        if s.subs[i].queue != [] then s.(subs := s.subs[i := Discard(s.subs[i])])
        else s.(subs := s.subs[i := s.subs[i].(closes := s.subs[i].closes + 1)], lock := Free)
      else s
  }

  function Run<S>(s: State<S>, evs: seq<Event<S>>): State<S>
    decreases |evs|
  {
    if evs == [] then s else Run(Step(s, evs[0]), evs[1..])
  }

  // --------------------------------------------------------------- invariant

  /** What was accepted into the channel, read or not. */
  function Accepted<S>(sub: Sub<S>): seq<S> { sub.received + sub.queue }

  /** The frames are the run of published states right after the initial one. */
  ghost predicate GapFree<S>(history: seq<S>, start: nat, frames: seq<S>) {
    start + 1 + |frames| <= |history| && frames == history[start + 1..start + 1 + |frames|]
  }

  /** The received frames are published states after the initial one, in order. */
  ghost predicate InOrder<S>(history: seq<S>, sub: Sub<S>) {
    && |sub.at| == |sub.received| && sub.start < sub.head <= |history|
    && (forall k :: 0 <= k < |sub.at| ==> sub.start < sub.at[k] < sub.head && sub.received[k] == history[sub.at[k]])
    && (forall j, k :: 0 <= j < k < |sub.at| ==> sub.at[j] < sub.at[k])
  }

  /** What the channel holds are the states from `head` on. */
  ghost predicate Queued<S>(history: seq<S>, sub: Sub<S>) {
    && |sub.queue| <= CAPACITY && sub.head + |sub.queue| <= |history|
    && sub.queue == history[sub.head..sub.head + |sub.queue|]
  }

  ghost predicate Untouched<S>(sub: Sub<S>) {
    sub.head == sub.start + 1 + |sub.at| && forall k :: 0 <= k < |sub.at| ==> sub.at[k] == sub.start + 1 + k
  }

  predicate Awaits(lock: Lock, i: nat) { lock.Publishing? && i in lock.pending }

  predicate Settled<S>(history: seq<S>, sub: Sub<S>, i: nat, lock: Lock) {
    && (sub.registered ==>
          && !sub.cancelled && sub.closes == 0
          && sub.head + |sub.queue| + (if Awaits(lock, i) then 1 else 0) == |history|)
    && (!sub.registered ==> !Awaits(lock, i) && sub.closes == if lock == Cancelling(i) then 0 else 1)
    && (lock == Cancelling(i) ==> sub.cancelled)
    && (sub.cancelled && lock != Cancelling(i) ==> sub.queue == [])
  }

  ghost predicate Good<S>(history: seq<S>, sub: Sub<S>, i: nat, lock: Lock) {
    && InOrder(history, sub) && Queued(history, sub)
    && (!sub.cancelled ==> Untouched(sub))
    && Settled(history, sub, i, lock)
  }

  ghost predicate Inv<S>(s: State<S>) {
    && s.history != [] && (s.lock.Publishing? ==> forall i: nat :: i in s.lock.pending ==> i < |s.subs|)
    && (s.lock.Cancelling? ==> s.lock.whom < |s.subs| && !s.subs[s.lock.whom].registered)
    && forall i: nat :: i < |s.subs| ==> Good(s.history, s.subs[i], i, s.lock)
  }

  lemma PublishGood<S>(s: State<S>, snap: S, i: nat)
    requires Inv(s) && s.lock.Free? && i < |s.subs|
    ensures Good(s.history + [snap], s.subs[i], i, Serving(Registered(s.subs)))
  {
    var sub, h := s.subs[i], s.history + [snap];
    assert Good(s.history, sub, i, s.lock);
    assert h[sub.head..sub.head + |sub.queue|] == s.history[sub.head..sub.head + |sub.queue|];
    assert sub.registered ==> i in Registered(s.subs);
  }

  lemma EnqueueGood<S>(history: seq<S>, sub: Sub<S>, i: nat, pending: set<nat>)
    requires history != [] && i in pending && Good(history, sub, i, Publishing(pending))
    ensures Good(history, Enqueue(sub, history[|history| - 1]), i, Serving(pending - {i}))
  {
    var n := sub.head + |sub.queue|;
    if |sub.queue| < CAPACITY { assert history[sub.head..n + 1] == history[sub.head..n] + [history[n]]; }
  }

  lemma DeliverInOrder<S>(history: seq<S>, sub: Sub<S>)
    requires InOrder(history, sub) && Queued(history, sub) && sub.queue != []
    ensures InOrder(history, Deliver(sub))
  {
    assert sub.queue[0] == history[sub.head];
  }

  lemma DeliverQueued<S>(history: seq<S>, sub: Sub<S>)
    requires Queued(history, sub) && sub.queue != []
    ensures Queued(history, Deliver(sub)) && Accepted(Deliver(sub)) == Accepted(sub)
  {
    assert [sub.queue[0]] + sub.queue[1..] == sub.queue;
  }

  lemma DeliverGood<S>(history: seq<S>, sub: Sub<S>, i: nat, lock: Lock)
    requires Good(history, sub, i, lock)
    ensures Good(history, Deliver(sub), i, lock) && Accepted(Deliver(sub)) == Accepted(sub)
  {
    if sub.queue != [] {
      DeliverInOrder(history, sub);
      DeliverQueued(history, sub);
    }
  }

  lemma OthersGood<S>(history: seq<S>, sub: Sub<S>, i: nat, lock: Lock, lock': Lock)
    requires Good(history, sub, i, lock)
    requires Awaits(lock, i) == Awaits(lock', i) && (lock == Cancelling(i) <==> lock' == Cancelling(i))
    ensures Good(history, sub, i, lock')
  {}

  lemma OfferKeeps<S>(s: State<S>, to: nat)
    requires Inv(s)
    ensures Inv(Step(s, Offer(to)))
  {
    var s' := Step(s, Offer(to));
    if s' != s {
      forall i: nat | i < |s.subs| ensures Good(s'.history, s'.subs[i], i, s'.lock) {
        if i == to { EnqueueGood(s.history, s.subs[i], i, s.lock.pending); }
        else { OthersGood(s.history, s.subs[i], i, s.lock, s'.lock); }
      }
    }
  }

  lemma CancelKeeps<S>(s: State<S>, who: nat)
    requires Inv(s)
    ensures Inv(Step(s, Cancel(who)))
  {
    var s' := Step(s, Cancel(who));
    if s' != s {
      forall i: nat | i < |s.subs| ensures Good(s'.history, s'.subs[i], i, s'.lock) {
        assert Good(s.history, s.subs[i], i, s.lock);
      }
    }
  }

  lemma DrainKeeps<S>(s: State<S>)
    requires Inv(s)
    ensures Inv(Step(s, Drain))
  {
    var s' := Step(s, Drain);
    if s' != s {
      forall i: nat | i < |s.subs| ensures Good(s'.history, s'.subs[i], i, s'.lock) {
        assert Good(s.history, s.subs[i], i, s.lock);
      }
    }
  }

  lemma SubscribeKeeps<S>(s: State<S>)
    requires Inv(s)
    ensures Inv(Step(s, Subscribe))
  {
    var s' := Step(s, Subscribe);
    forall i: nat | i < |s'.subs| ensures Good(s'.history, s'.subs[i], i, s'.lock) {
      if i < |s.subs| { assert Good(s.history, s.subs[i], i, s.lock); }
    }
  }

  lemma StepKeeps<S>(s: State<S>, ev: Event<S>)
    requires Inv(s)
    ensures Inv(Step(s, ev))
  {
    match ev
    case Publish(snap) =>
      if s.lock.Free? {
        forall i: nat | i < |s.subs| ensures Good(s.history + [snap], s.subs[i], i, Serving(Registered(s.subs))) {
          PublishGood(s, snap, i);
        }
      }
    case Offer(to) => OfferKeeps(s, to);
    case Subscribe => SubscribeKeeps(s);
    case Receive(who) => if who < |s.subs| { DeliverGood(s.history, s.subs[who], who, s.lock); }
    case Cancel(who) => CancelKeeps(s, who);
    case Drain => DrainKeeps(s);
  }

  // ------------------------------------------------------------ main results

  function Initial<S>(snap: S): State<S> { State([snap], [], Free) }

  lemma {:induction false} RunKeeps<S>(s: State<S>, evs: seq<Event<S>>)
    requires Inv(s)
    ensures Inv(Run(s, evs))
    decreases |evs|
  {
    if evs != [] {
      StepKeeps(s, evs[0]);
      RunKeeps(Step(s, evs[0]), evs[1..]);
    }
  }

  lemma UntouchedGapFree<S>(history: seq<S>, sub: Sub<S>)
    requires InOrder(history, sub) && Queued(history, sub) && Untouched(sub)
    ensures GapFree(history, sub.start, sub.received) && GapFree(history, sub.start, Accepted(sub))
  {
    assert sub.received == history[sub.start + 1..sub.head];
    assert Accepted(sub) == history[sub.start + 1..sub.head + |sub.queue|];
  }

  /** In every interleaving, each subscriber receives published states in order,
      none twice and none older than its initial snapshot.  Until it begins to
      cancel, initial snapshot, received and waiting frames are a gap-free run of
      the published states; while registered it has missed nothing but what a
      publication under way is about to offer; its channel is closed exactly once,
      when it has left the store. */
  lemma RunGapFree<S>(first: S, evs: seq<Event<S>>, who: nat)
    ensures var end := Run(Initial(first), evs);
            who < |end.subs| ==>
              var sub := end.subs[who];
              && InOrder(end.history, sub)
              && (!sub.cancelled ==>
                    && GapFree(end.history, sub.start, sub.received)
                    && GapFree(end.history, sub.start, sub.received + sub.queue))
              && (sub.registered && !Awaits(end.lock, who) ==>
                    [end.history[sub.start]] + sub.received + sub.queue == end.history[sub.start..])
              && sub.closes == (if sub.registered || end.lock == Cancelling(who) then 0 else 1)
  {
    RunKeeps(Initial(first), evs);
    var end := Run(Initial(first), evs);
    if who < |end.subs| {
      var sub := end.subs[who];
      assert Good(end.history, sub, who, end.lock);
      if !sub.cancelled { UntouchedGapFree(end.history, sub); }
      assert [end.history[sub.start]] + end.history[sub.start + 1..] == end.history[sub.start..];
      assert [end.history[sub.start]] + sub.received + sub.queue == [end.history[sub.start]] + Accepted(sub);
    }
  }

  /** What stays true of a subscriber that has left. */
  ghost predicate Gone<S>(before: Sub<S>, after: Sub<S>) {
    && !after.registered && after.cancelled == before.cancelled && after.closes <= 1
    && after.head + |after.queue| == before.head + |before.queue|
    && before.received <= after.received
    && (!before.cancelled ==> Accepted(after) == Accepted(before))
  }

  lemma StepGone<S>(s: State<S>, ev: Event<S>, who: nat)
    requires Inv(s) && who < |s.subs| && !s.subs[who].registered
    ensures who < |Step(s, ev).subs| && Gone(s.subs[who], Step(s, ev).subs[who])
  {
    assert Good(s.history, s.subs[who], who, s.lock);
    DeliverGood(s.history, s.subs[who], who, s.lock);
  }

  /** Once a subscriber has left, its channel accepts nothing more and is closed
      only once; unless it cancelled, it can still read exactly the frames
      accepted before the overflow. */
  lemma {:induction false} NothingAfterClose<S>(s: State<S>, evs: seq<Event<S>>, who: nat)
    requires Inv(s) && who < |s.subs| && !s.subs[who].registered
    ensures who < |Run(s, evs).subs| && Gone(s.subs[who], Run(s, evs).subs[who])
    decreases |evs|
  {
    assert Good(s.history, s.subs[who], who, s.lock);
    if evs != [] {
      StepKeeps(s, evs[0]);
      StepGone(s, evs[0], who);
      NothingAfterClose(Step(s, evs[0]), evs[1..], who);
    }
  }

  function Receptions<S>(who: nat, n: nat): seq<Event<S>> { seq(n, _ => Receive(who)) }

  /** Draining: reading as often as frames are waiting yields all of them. */
  lemma {:induction false} Drained<S>(s: State<S>, who: nat)
    requires Inv(s) && who < |s.subs|
    ensures var end := Run(s, Receptions(who, |s.subs[who].queue|));
            who < |end.subs| && end.subs[who].received == Accepted(s.subs[who]) && end.subs[who].queue == []
    decreases |s.subs[who].queue|
  {
    var sub := s.subs[who];
    var evs := Receptions<S>(who, |sub.queue|);
    if sub.queue == [] {
      assert Run(s, evs) == s;
    } else {
      StepKeeps(s, evs[0]);
      DeliverGood(s.history, sub, who, s.lock);
      assert evs[1..] == Receptions<S>(who, |sub.queue| - 1);
      Drained(Step(s, evs[0]), who);
    }
  }

  /** A subscriber is dropped by an offer exactly when its channel was full, and
      then all CAPACITY frames it had not read are still there. */
  lemma OverflowKeepsFrames<S>(s: State<S>, who: nat)
    requires Inv(s) && who < |s.subs| && Awaits(s.lock, who)
    ensures var after := Step(s, Offer(who)).subs[who];
            && (!after.registered <==> |s.subs[who].queue| == CAPACITY)
            && (!after.registered ==>
                  after.queue == s.subs[who].queue && after.received == s.subs[who].received && !after.cancelled)
  {
    assert Good(s.history, s.subs[who], who, s.lock);
  }

  /** The received frames are the first ones after the initial snapshot. */
  ghost predicate Contiguous<S>(sub: Sub<S>) { forall k :: 0 <= k < |sub.at| ==> sub.at[k] == sub.start + 1 + k }

  /** Whatever happens after the subscriber cancels, it receives without gaps. */
  ghost predicate CancelsCleanly<S(!new)>(s: State<S>, who: nat) {
    forall evs: seq<Event<S>> ::
      var end := Run(Step(s, Cancel(who)), evs); who < |end.subs| && Contiguous(end.subs[who])
  }

  /** A subscriber that has left with at most the very next frame in its channel. */
  ghost predicate AlmostDone<S>(sub: Sub<S>) {
    && !sub.registered && Contiguous(sub)
    && (sub.queue == [] || (|sub.queue| == 1 && sub.head == sub.start + 1 + |sub.at|))
  }

  lemma StepAlmostDone<S>(s: State<S>, ev: Event<S>, who: nat)
    requires who < |s.subs| && AlmostDone(s.subs[who])
    ensures who < |Step(s, ev).subs| && AlmostDone(Step(s, ev).subs[who])
  {}

  lemma {:induction false} RunAlmostDone<S>(s: State<S>, evs: seq<Event<S>>, who: nat)
    requires who < |s.subs| && AlmostDone(s.subs[who])
    ensures who < |Run(s, evs).subs| && AlmostDone(Run(s, evs).subs[who])
    decreases |evs|
  {
    if evs != [] {
      StepAlmostDone(s, evs[0], who);
      RunAlmostDone(Step(s, evs[0]), evs[1..], who);
    }
  }

  /** The exact condition for gap-freedom to survive a cancellation: at most one
      frame is waiting when it begins. */
  lemma CancelsCleanlyExactly<S(!new)>(s: State<S>, who: nat)
    requires Inv(s) && s.lock.Free? && who < |s.subs| && s.subs[who].registered
    ensures CancelsCleanly(s, who) <==> |s.subs[who].queue| <= 1
  {
    var sub, s1 := s.subs[who], Step(s, Cancel(who));
    assert Good(s.history, sub, who, s.lock);
    if |sub.queue| <= 1 {
      forall evs: seq<Event<S>>
        ensures var end := Run(s1, evs); who < |end.subs| && Contiguous(end.subs[who])
      {
        RunAlmostDone(s1, evs, who);
      }
    } else {
      var evs: seq<Event<S>> := [Drain] + [Receive(who)];
      DrainThenReceive(s1, who);
      assert !Contiguous(Run(s1, evs).subs[who]);
    }
  }

  lemma DrainThenReceive<S>(s: State<S>, who: nat)
    requires who < |s.subs| && s.lock == Cancelling(who) && |s.subs[who].queue| >= 2 && Untouched(s.subs[who])
    ensures var end := Run(s, [Drain] + [Receive(who)]); who < |end.subs| && !Contiguous(end.subs[who])
  {
    var n := |s.subs[who].at|;
    var s1 := Step(s, Drain);
    var last: seq<Event<S>> := [Receive(who)];
    RunCons(s, Drain, last);
    assert last == [Receive(who)] + [];
    RunCons(s1, Receive(who), []);
    var sub := Step(s1, Receive(who)).subs[who];
    assert sub.at[n] == s.subs[who].head + 1;
  }

  /** Gap-freedom does end when a cancellation begins: a reader may take the second
      frame after the cancellation has discarded the first. */
  lemma CancelMayLeaveGap(a: int, b: int)
    ensures var end := Run(Initial(0), [Subscribe] + (Filling(a) + (Filling(b) + [Cancel(0), Drain, Receive(0)])));
            |end.subs| == 1 && end.subs[0].cancelled && end.subs[0].received == [b] && end.history == [0, a, b]
  {
    var sub, rest := NewSub<int>(0), [Cancel(0), Drain, Receive(0)];
    RunCons(Initial(0), Subscribe, Filling(a) + (Filling(b) + rest));
    assert Step(Initial(0), Subscribe) == State([0], [sub], Free);
    FillOne([0], sub, a, Filling(b) + rest);
    FillOne([0, a], sub.(queue := [a]), b, rest);
    assert [0] + [a] == [0, a] && [0, a] + [b] == [0, a, b];
    assert sub.queue + [a] == [a] && [a] + [b] == [a, b];
    GapAfter(a, b, sub.(queue := [a, b]));
  }

  /** A publication to a single subscriber. */
  function Filling(snap: int): seq<Event<int>> { [Publish(snap), Offer(0)] }

  lemma FillOne(history: seq<int>, sub: Sub<int>, snap: int, rest: seq<Event<int>>)
    requires sub.registered && |sub.queue| < CAPACITY
    ensures Run(State(history, [sub], Free), Filling(snap) + rest)
         == Run(State(history + [snap], [sub.(queue := sub.queue + [snap])], Free), rest)
  {
    var s0, s1 := State(history, [sub], Free), State(history + [snap], [sub], Publishing({0}));
    assert Filling(snap) + rest == [Publish(snap)] + ([Offer(0)] + rest);
    assert Registered([sub]) == {0};
    assert Step(s0, Publish(snap)) == s1;
    assert {0} - {0} == {} && s1.history[|s1.history| - 1] == snap;
    assert Step(s1, Offer(0)) == State(s1.history, [sub.(queue := sub.queue + [snap])], Free);
    RunCons(s0, Publish(snap), [Offer(0)] + rest);
    RunCons(s1, Offer(0), rest);
  }

  lemma GapAfter(a: int, b: int, two: Sub<int>)
    requires two == NewSub<int>(0).(queue := [a, b])
    ensures var end := Run(State([0, a, b], [two], Free), [Cancel(0), Drain, Receive(0)]);
            |end.subs| == 1 && end.subs[0].cancelled && end.subs[0].received == [b] && end.history == [0, a, b]
  {
    var s0 := State([0, a, b], [two], Free);
    var gone := two.(registered := false, cancelled := true);
    var s1 := State([0, a, b], [gone], Cancelling(0));
    var s2 := State([0, a, b], [gone.(head := 2, queue := [b])], Cancelling(0));
    assert Step(s0, Cancel(0)) == s1;
    assert [a, b][1..] == [b];
    assert Step(s1, Drain) == s2;
    var last: seq<Event<int>> := [Receive(0)];
    assert [Cancel(0), Drain, Receive(0)] == [Cancel(0)] + ([Drain] + last);
    RunCons(s0, Cancel(0), [Drain] + last);
    RunCons(s1, Drain, last);
    assert last == [Receive(0)] + [];
    RunCons(s2, Receive(0), []);
  }

  lemma RunCons<S>(s: State<S>, ev: Event<S>, rest: seq<Event<S>>)
    ensures Run(s, [ev] + rest) == Run(Step(s, ev), rest)
  {
    assert ([ev] + rest)[1..] == rest;
  }

  // ---------------------------------------------------------------- the store

  datatype Chan<S> = Chan(queue: seq<S>, closed: bool)

  function Observed<S>(sub: Sub<S>): Chan<S> { Chan(sub.queue, sub.closes > 0) }

  ghost predicate Shows<S>(chans: seq<Chan<S>>, subs: seq<Sub<S>>) {
    |chans| == |subs| && forall i :: 0 <= i < |chans| ==> chans[i] == Observed(subs[i])
  }

  /** Nothing but one subscriber differs. */
  ghost predicate OnlyOne<S>(s: State<S>, s': State<S>, who: nat) {
    && s'.history == s.history && who < |s'.subs| == |s.subs|
    && forall i :: 0 <= i < |s.subs| && i != who ==> s'.subs[i] == s.subs[i]
  }

  /** A publication that still has to serve `left`. */
  ghost predicate Served<S>(before: seq<Sub<S>>, now: seq<Sub<S>>, left: set<nat>, snap: S) {
    && |now| == |before|
    && forall i: nat :: i < |now| ==> now[i] == if i in left then before[i] else Enqueue(before[i], snap)
  }

  lemma ServedStep<S>(before: seq<Sub<S>>, now: seq<Sub<S>>, left: set<nat>, snap: S, i: nat)
    requires Served(before, now, left, snap) && i in left && i < |now|
    ensures Served(before, now[i := Enqueue(now[i], snap)], left - {i}, snap)
  {}

  /** The store and its channels, numbered in order of arrival.  Its methods go
      through the events of the machine one by one. */
  class Store<S(==)> {
    var snap: S
    var subs: set<nat>
    var chans: seq<Chan<S>>
    ghost var view: State<S>

    ghost predicate Valid()
      reads this
    {
      && Inv(view) && snap == view.history[|view.history| - 1]
      && Shows(chans, view.subs) && subs == Registered(view.subs)
    }

    constructor (first: S)
      ensures Valid() && view == Initial(first)
    {
      snap := first;
      subs, chans := {}, [];
      view := Initial(first);
    }

    /** One subscriber's turn in a publication. */
    method OfferTo(i: nat)
      requires Valid() && Awaits(view.lock, i)
      modifies this`subs, this`chans, this`view
      ensures Valid() && snap == old(snap) && view.history == old(view).history
      ensures view.lock == Serving(old(view).lock.pending - {i})
      ensures view.subs == old(view).subs[i := Enqueue(old(view).subs[i], snap)]
    {
      assert Good(view.history, view.subs[i], i, view.lock);
      if |chans[i].queue| < CAPACITY {
        chans := chans[i := chans[i].(queue := chans[i].queue + [snap])];
      } else {
        subs := subs - {i};
        chans := chans[i := chans[i].(closed := true)];
      }
      StepKeeps(view, Offer(i));
      view := Step(view, Offer(i));
    }

    /** publishLocked: offers the snapshot to every subscriber, dropping those
        whose channel is full. */
    method Publish(next: S)
      requires Valid() && view.lock.Free?
      modifies this
      ensures Valid() && view.lock.Free? && snap == next && view.history == old(view).history + [next]
      ensures Served(old(view).subs, view.subs, {}, next)
    {
      var left := BeginPublish(next);
      while left != {}
        invariant Valid() && snap == next && view.history == old(view).history + [next]
        invariant view.lock == Serving(left) && Served(old(view).subs, view.subs, left, next)
        decreases |left|
      {
        var i :| i in left;
        ServedStep(old(view).subs, view.subs, left, next, i);
        OfferTo(i);
        left := left - {i};
      }
    }

    method BeginPublish(next: S) returns (left: set<nat>)
      requires Valid() && view.lock.Free?
      modifies this`snap, this`view
      ensures Valid() && snap == next && view == Step(old(view), Event.Publish(next))
      ensures view.lock == Serving(left) && Served(old(view).subs, view.subs, left, next)
    {
      snap := next;
      left := subs;
      StepKeeps(view, Event.Publish(next));
      view := Step(view, Event.Publish(next));
    }

    method SubscribeWithSnapshot() returns (who: nat, initial: S)
      requires Valid() && view.lock.Free?
      modifies this`subs, this`chans, this`view
      ensures Valid() && view == Step(old(view), Subscribe)
      ensures who == |old(chans)| && initial == view.history[view.subs[who].start]
    {
      StepKeeps(view, Subscribe);
      view := Step(view, Subscribe);
      who, initial := |chans|, snap;
      chans := chans + [Chan([], false)];
      subs := subs + {who};
    }

    /** The subscriber reads one frame, whoever holds the lock; a closed channel
        still yields what it holds. */
    method Receive(who: nat) returns (frame: seq<S>)
      requires Valid() && who < |chans|
      modifies this`chans, this`view
      ensures Valid() && view == Step(old(view), Event.Receive(who))
      ensures view.subs[who].received == old(view).subs[who].received + frame
      ensures frame == [] <==> old(chans)[who].queue == []
    {
      StepKeeps(view, Event.Receive(who));
      view := Step(view, Event.Receive(who));
      frame := [];
      if chans[who].queue != [] {
        frame := [chans[who].queue[0]];
        chans := chans[who := chans[who].(queue := chans[who].queue[1..])];
      }
    }

    /** One turn of the draining loop; closes when nothing is left. */
    method DrainOnce(who: nat) returns (done: bool)
      requires Valid() && view.lock == Cancelling(who)
      modifies this`chans, this`view
      ensures Valid() && view == Step(old(view), Drain) && done == view.lock.Free?
      ensures OnlyOne(old(view), view, who) && view.subs[who].cancelled == old(view).subs[who].cancelled
      ensures if done then chans[who] == Chan([], true)
              else view.lock == old(view).lock && |view.subs[who].queue| < |old(view).subs[who].queue|
    {
      done := chans[who].queue == [];
      chans := chans[who := if done then Chan([], true) else chans[who].(queue := chans[who].queue[1..])];
      StepKeeps(view, Drain);
      view := Step(view, Drain);
    }

    method BeginCancel(who: nat)
      requires Valid() && view.lock.Free? && who in subs
      modifies this`subs, this`view
      ensures Valid() && view == Step(old(view), Event.Cancel(who)) && view.lock == Cancelling(who)
      ensures OnlyOne(old(view), view, who) && view.subs[who].cancelled
    {
      subs := subs - {who};
      StepKeeps(view, Event.Cancel(who));
      view := Step(view, Event.Cancel(who));
    }

    /** The cancel function: removes the subscriber, discards what is queued, closes. */
    method Cancel(who: nat)
      requires Valid() && view.lock.Free? && who < |chans|
      modifies this`subs, this`chans, this`view
      ensures Valid() && view.lock.Free?
      ensures if who in old(subs) then OnlyOne(old(view), view, who) && view.subs[who].cancelled
              && chans[who] == Chan([], true)
              else view == old(view)
    {
      if who !in subs { return; }
      BeginCancel(who);
      var done := false;
      while !done
        invariant Valid() && OnlyOne(old(view), view, who) && view.subs[who].cancelled
        invariant if done then view.lock.Free? && chans[who] == Chan([], true) else view.lock == Cancelling(who)
        decreases |view.subs[who].queue|, if done then 0 else 1
      {
        done := DrainOnce(who);
      }
    }
  }
}
