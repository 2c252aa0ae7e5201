/** Store.Wait: one waiter with an unbounded queue and a one-slot wakeup channel.

    Publishers are serialized by the store's lock, but the waiter takes the
    wakeup token without holding any lock, so appending to the queue and putting
    the token are separate steps.  The waiter's section under the queue lock
    (pop, and put the token back if more is queued) is one step that cannot
    happen between those two. */
module WaitQueue {

  datatype Phase<S> =
    | Checking(snap: S)      // about to evaluate the predicate
    | Blocked                // at the select on the context and the token
    | Woken                  // took the token, about to lock the queue
    | Returned(result: S)
    | Gone                   // returned the context error

  /** `history` is everything published, ending in the current snapshot; the
      waiter registered when `start` was the last position. */
  datatype State<S> = State(history: seq<S>, start: nat, queue: seq<S>, token: bool, signalling: bool, waiter: Phase<S>)

  datatype Event<S> = Append(snap: S) | Signal | Check | Take | Pop | GiveUp

  function Register<S>(history: seq<S>): State<S>
    requires history != []
  {
    State(history, |history| - 1, [], false, false, Checking(history[|history| - 1]))
  }

  predicate Enabled<S>(s: State<S>, ev: Event<S>) {
    match ev
    case Append(_) => !s.signalling
    case Signal => s.signalling
    case Check => s.waiter.Checking?
    case Take => s.waiter.Blocked? && s.token
    case Pop => s.waiter.Woken? && !s.signalling
    case GiveUp => s.waiter.Blocked?
  }

  function Step<S>(p: S -> bool, s: State<S>, ev: Event<S>): State<S>
    requires Enabled(s, ev)
  {
    match ev
    case Append(snap) => s.(history := s.history + [snap], queue := s.queue + [snap], signalling := true)
    case Signal => s.(token := true, signalling := false)
    case Check => s.(waiter := if p(s.waiter.snap) then Returned(s.waiter.snap) else Blocked)
    case Take => s.(token := false, waiter := Woken)
    case Pop =>
      if s.queue == [] then s.(waiter := Blocked)
      else s.(waiter := Checking(s.queue[0]), queue := s.queue[1..], token := s.token || |s.queue| > 1)
    case GiveUp => s.(waiter := Gone)
  }

  /** Every interleaving: any enabled event may come next. */
  ghost predicate Reachable<S(!new)>(p: S -> bool, from: State<S>, evs: seq<Event<S>>, to: State<S>)
    decreases |evs|
  {
    if evs == [] then from == to
    else Enabled(from, evs[0]) && Reachable(p, Step(p, from, evs[0]), evs[1..], to)
  }

  // --------------------------------------------------------------- invariant

  /** How many states the waiter has taken over, counting the one it registered with. */
  function Taken<S>(s: State<S>): int { |s.history| - s.start - |s.queue| }

  ghost predicate AllFail<S>(p: S -> bool, s: State<S>, n: int) {
    forall i :: s.start <= i < s.start + n && i < |s.history| ==> !p(s.history[i])
  }

  ghost predicate Inv<S>(p: S -> bool, s: State<S>) {
    && s.start < |s.history| && Taken(s) >= 1
    && s.queue == s.history[s.start + Taken(s)..]
    && (s.queue != [] ==> s.token || s.signalling || s.waiter.Woken?)
    && match s.waiter
       case Checking(snap) => snap == s.history[s.start + Taken(s) - 1] && AllFail(p, s, Taken(s) - 1)
       case Returned(snap) => snap == s.history[s.start + Taken(s) - 1] && p(snap) && AllFail(p, s, Taken(s) - 1)
       case _ => AllFail(p, s, Taken(s))
  }

  lemma AppendKeeps<S>(p: S -> bool, s: State<S>, snap: S)
    requires Inv(p, s) && Enabled(s, Append(snap))
    ensures Inv(p, Step(p, s, Append(snap)))
  {
    var s' := Step(p, s, Append(snap));
    assert s'.queue == s'.history[s'.start + Taken(s')..];
  }

  lemma PopKeeps<S>(p: S -> bool, s: State<S>)
    requires Inv(p, s) && Enabled(s, Pop)
    ensures Inv(p, Step(p, s, Pop))
  {
    var s' := Step(p, s, Pop);
    if s.queue != [] {
      assert s.queue[0] == s.history[s.start + Taken(s)];
      assert s'.queue == s'.history[s'.start + Taken(s')..];
    }
  }

  lemma StepKeeps<S>(p: S -> bool, s: State<S>, ev: Event<S>)
    requires Inv(p, s) && Enabled(s, ev)
    ensures Inv(p, Step(p, s, ev)) && Step(p, s, ev).start == s.start && s.history <= Step(p, s, ev).history
  {
    match ev
    case Append(snap) => AppendKeeps(p, s, snap);
    case Pop => PopKeeps(p, s);
    case Signal =>
    case Check =>
    case Take =>
    case GiveUp =>
  }

  lemma {:induction false} ReachableInv<S(!new)>(p: S -> bool, from: State<S>, evs: seq<Event<S>>, to: State<S>)
    requires Inv(p, from) && Reachable(p, from, evs, to)
    ensures Inv(p, to) && to.start == from.start && from.history <= to.history
    decreases |evs|
  {
    if evs != [] {
      StepKeeps(p, from, evs[0]);
      ReachableInv(p, Step(p, from, evs[0]), evs[1..], to);
    }
  }

  // ------------------------------------------------------------ main results

  ghost predicate IsFirst<S>(p: S -> bool, history: seq<S>, start: nat, j: nat) {
    start <= j < |history| && p(history[j]) && forall i :: start <= i < j ==> !p(history[i])
  }

  /** In every interleaving no wakeup is lost (a queued state means the token is
      there, on its way, or already taken), and a result is the first state, in
      publication order from registration on, that satisfies the predicate. */
  lemma WaitSafe<S(!new)>(p: S -> bool, history: seq<S>, evs: seq<Event<S>>, to: State<S>)
    requires history != [] && Reachable(p, Register(history), evs, to)
    ensures to.queue != [] ==> to.token || to.signalling || to.waiter.Woken?
    ensures to.queue != [] && !to.signalling && to.waiter.Blocked? ==> Enabled(to, Take)
    ensures to.waiter.Returned? ==>
              exists j: nat :: IsFirst(p, to.history, |history| - 1, j) && to.waiter.result == to.history[j]
  {
    ReachableInv(p, Register(history), evs, to);
    if to.waiter.Returned? {
      assert IsFirst(p, to.history, |history| - 1, to.start + Taken(to) - 1);
    }
  }

  /** Letting only the waiter run, until it returns or has nothing to do. */
  function Settle<S>(p: S -> bool, s: State<S>): State<S>
    requires !s.signalling
    decreases |s.queue|, if s.waiter.Blocked? then 2 else if s.waiter.Woken? then 1 else if s.waiter.Checking? then 3
              else 0
  {
    if s.waiter.Checking? then Settle(p, Step(p, s, Check))
    else if s.waiter.Blocked? && s.token && s.queue != [] then Settle(p, Step(p, s, Take))
    else if s.waiter.Woken? && s.queue != [] then Settle(p, Step(p, s, Pop))
    else s
  }

  /** Nothing published is lost: once the publishers are quiet, the waiter on its
      own returns the first satisfying state if there is one, and otherwise has
      looked at everything. */
  lemma {:induction false} SettleFinds<S>(p: S -> bool, s: State<S>)
    requires Inv(p, s) && !s.signalling && !s.waiter.Gone?
    ensures var e := Settle(p, s);
            && Inv(p, e) && e.start == s.start && e.history == s.history
            && (e.waiter.Returned? || (e.queue == [] && (e.waiter.Blocked? || e.waiter.Woken?)))
    decreases |s.queue|, if s.waiter.Blocked? then 2 else if s.waiter.Woken? then 1 else if s.waiter.Checking? then 3
              else 0
  {
    if s.waiter.Checking? {
      StepKeeps(p, s, Check);
      SettleFinds(p, Step(p, s, Check));
    } else if s.waiter.Blocked? && s.token && s.queue != [] {
      StepKeeps(p, s, Take);
      SettleFinds(p, Step(p, s, Take));
    } else if s.waiter.Woken? && s.queue != [] {
      StepKeeps(p, s, Pop);
      SettleFinds(p, Step(p, s, Pop));
    }
  }

  lemma WaitLive<S(!new)>(p: S -> bool, history: seq<S>, evs: seq<Event<S>>, to: State<S>)
    requires history != [] && Reachable(p, Register(history), evs, to) && !to.signalling && !to.waiter.Gone?
    ensures var e := Settle(p, to);
            if exists j :: |history| - 1 <= j < |to.history| && p(to.history[j])
            then
              && e.waiter.Returned?
              && exists j: nat :: IsFirst(p, to.history, |history| - 1, j) && e.waiter.result == to.history[j]
            else !e.waiter.Returned? && e.queue == []
  {
    ReachableInv(p, Register(history), evs, to);
    SettleFinds(p, to);
    var e := Settle(p, to);
    if e.waiter.Returned? {
      assert IsFirst(p, to.history, |history| - 1, e.start + Taken(e) - 1);
    } else {
      assert AllFail(p, e, Taken(e)) && e.start + Taken(e) == |e.history|;
    }
  }
}
