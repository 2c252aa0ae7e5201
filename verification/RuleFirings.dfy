/** When rules fire, both ways: over any ticks a rule fires exactly at those its
    history of readings calls for.  The histories are defined from the ticks alone,
    without hold timers, armed flags or pending occurrences. */
module RuleFirings {
  import opened Base
  import opened Rules
  import opened RuleEngine

  // ---------------------------------------------------------------- readings

  /** The snapshot holds reading `x` for the rule. */
  predicate Measured(r: Rule, s: Snapshot, x: real) {
    || (r.condition == BatteryLevel && s.battery.Some? && x == s.battery.value.level as real)
    || (r.condition == PortPower && r.port == Dc && s.dc.Some? && s.dc.value.watts == Num(x))
    || (r.condition == PortPower && r.port == Usbc && s.typeC.Some? && s.typeC.value.watts == Num(x))
    || (r.condition == Temperature && s.typeC.Some? && s.typeC.value.temp == Num(x))
  }

  predicate Threshold(r: Rule, y: real) {
    || (r.condition == BatteryLevel && y == r.percent as real)
    || (r.condition == PortPower && r.watts == Num(y))
    || (r.condition == Temperature && r.temp == Num(y))
  }

  ghost predicate Crossed(r: Rule, s: Snapshot, x: real, y: real) {
    Measured(r, s, x) && Threshold(r, y) && if r.below then x < y else x > y
  }

  /** A rule on a measurement is satisfied exactly when there is a reading strictly
      on its side of the threshold; none, or one that is not a number, never is. */
  lemma ConditionExactly(r: Rule, s: Snapshot)
    requires r.condition in {BatteryLevel, PortPower, Temperature}
    ensures ConditionTrue(r, s) <==> exists x, y :: Crossed(r, s, x, y)
  {
    if ConditionTrue(r, s) {
      var (x, y) :=
        if r.condition == BatteryLevel then (s.battery.value.level as real, r.percent as real)
        else if r.condition == Temperature then (s.typeC.value.temp.v, r.temp.v)
        else (if r.port == Dc then s.dc.value.watts.v else s.typeC.value.watts.v, r.watts.v);
      assert Crossed(r, s, x, y);
    }
  }

  /** The device is being charged: its battery says so, or its USB-C port takes DC input. */
  ghost predicate Powered(s: Snapshot) {
    (exists b :: s.battery == Some(b) && b.status == 1) || (exists c :: s.typeC == Some(c) && c.dcInput)
  }

  /** A rule on input power compares it with what the rule asks for, and a snapshot
      without telemetry counts as unpowered; every other kind is never satisfied. */
  lemma InputPowerExactly(r: Rule, s: Snapshot)
    requires r.condition !in {BatteryLevel, PortPower, Temperature}
    ensures ConditionTrue(r, s) <==> r.condition == InputPower && (r.present <==> Powered(s))
  {
    assert s.battery.Some? ==> s.battery == Some(s.battery.value);
    assert s.typeC.Some? ==> s.typeC == Some(s.typeC.value);
  }

  // ------------------------------------------------------- condition rules

  ghost predicate RearmedBetween(r: Rule, ticks: seq<Tick>, i: nat, k: nat)
    requires k <= |ticks|
  {
    exists j :: i < j < k && Rearms(r, ticks[j])
  }

  /** Tick `k` ends an unbroken run of satisfied ticks that has lasted the hold. */
  predicate HeldAt(r: Rule, ticks: seq<Tick>, k: nat)
    requires k < |ticks|
  {
    Satisfied(r, ticks[k]) && ticks[k].now - ticks[RunStart(r, ticks, k)].now >= r.hold
  }

  /** The history calls for a firing at tick `k`: the hold has lasted, and this is the
      first firing, or the rule was re-armed since the last, or is due to repeat. */
  ghost predicate CalledFor(r: Rule, ticks: seq<Tick>, k: nat)
    requires k < |ticks|
    decreases k, 1
  {
    && HeldAt(r, ticks, k)
    && match LastCalled(r, ticks, k)
       case None => true
       case Some(i) => RearmedBetween(r, ticks, i, k) || RepeatApart(r, ticks, i, k)
  }

  ghost function LastCalled(r: Rule, ticks: seq<Tick>, k: nat): (i: Option<nat>)
    requires k <= |ticks|
    ensures i.None? ==> forall j: nat :: j < k ==> !CalledFor(r, ticks, j)
    ensures i.Some? ==> i.value < k && CalledFor(r, ticks, i.value)
                        && forall j: nat :: i.value < j < k ==> !CalledFor(r, ticks, j)
    decreases k, 0
  {
    if k == 0 then None else if CalledFor(r, ticks, k - 1) then Some(k - 1) else LastCalled(r, ticks, k - 1)
  }

  /** The rule's memory is its history: the time of the last firing, and armed if and
      only if there was none or a re-arm tick came since. */
  ghost predicate Remembers(st: RuleState, r: Rule, ticks: seq<Tick>, k: nat)
    requires k <= |ticks|
  {
    match LastCalled(r, ticks, k)
    case None => st.armed && st.lastFired.None?
    case Some(i) => st.lastFired == Some(ticks[i].now) && (st.armed <==> RearmedBetween(r, ticks, i, k))
  }

  predicate Untouched(st: RuleState) { FreshRule(st) && st.armed && st.lastFired.None? }

  lemma RearmedSnoc(r: Rule, ticks: seq<Tick>, i: nat, k: nat)
    requires i < k < |ticks|
    ensures RearmedBetween(r, ticks, i, k + 1) <==> RearmedBetween(r, ticks, i, k) || Rearms(r, ticks[k])
    ensures !RearmedBetween(r, ticks, i, i + 1)
  {}

  lemma {:induction false} ArmedExactly(cron: Cron, st: RuleState, ticks: seq<Tick>, k: nat)
    requires Untouched(st) && k <= |ticks|
    ensures Remembers(StateAt(cron, st, ticks, k), st.rule, ticks, k)
  {
    if k > 0 {
      ArmedExactly(cron, st, ticks, k - 1);
      HoldDatesFromRun(cron, st, ticks, k - 1);
      TickRemembers(cron, StateAt(cron, st, ticks, k - 1), ticks, k - 1);
    }
  }

  /** One tick of a rule whose memory is its history. */
  lemma TickRemembers(cron: Cron, st: RuleState, ticks: seq<Tick>, k: nat)
    requires k < |ticks| && st.rule.enabled && !st.scheduled && Remembers(st, st.rule, ticks, k)
    requires st.holdStart ==
             if k > 0 && Satisfied(st.rule, ticks[k - 1]) then Some(ticks[RunStart(st.rule, ticks, k - 1)].now)
             else None
    ensures var (st', fired) := TickRule(cron, st, ticks[k].snap, ticks[k].now);
            (fired <==> CalledFor(st.rule, ticks, k)) && Remembers(st', st.rule, ticks, k + 1)
  {
    var last := LastCalled(st.rule, ticks, k);
    if last.Some? { RearmedSnoc(st.rule, ticks, last.value, k); }
    assert !RearmedBetween(st.rule, ticks, k, k + 1);
  }

  /** A rule that is not a schedule fires at a tick if and only if its history of
      readings calls for it there. */
  lemma FiresExactly(cron: Cron, st: RuleState, ticks: seq<Tick>, k: nat)
    requires Untouched(st) && k < |ticks|
    ensures FiresAt(cron, st, ticks, k) <==> CalledFor(st.rule, ticks, k)
  {
    ArmedExactly(cron, st, ticks, k);
    HoldDatesFromRun(cron, st, ticks, k);
    TickRemembers(cron, StateAt(cron, st, ticks, k), ticks, k);
  }

  // -------------------------------------------------------------- schedules

  /** At tick `m` the schedule looks its next occurrence up: the first time, while
      disconnected, when it fires, and as long as there is none. */
  ghost predicate LooksUp(cron: Cron, r: Rule, ticks: seq<Tick>, m: nat)
    requires m < |ticks|
    decreases m, 2
  {
    || m == 0 || !ticks[m].snap.connected || Occurs(cron, r, ticks, m)
    || cron.next(r.cron, ticks[LastLookup(cron, r, ticks, m)].now).None?
  }

  ghost function LastLookup(cron: Cron, r: Rule, ticks: seq<Tick>, k: nat): (m: nat)
    requires 0 < k <= |ticks|
    ensures m < k && LooksUp(cron, r, ticks, m) && forall j: nat :: m < j < k ==> !LooksUp(cron, r, ticks, j)
    decreases k, 0
  {
    if LooksUp(cron, r, ticks, k - 1) then k - 1 else LastLookup(cron, r, ticks, k - 1)
  }

  /** The occurrence found by the last look-up has come. */
  ghost predicate Occurs(cron: Cron, r: Rule, ticks: seq<Tick>, k: nat)
    requires k < |ticks|
    decreases k, 1
  {
    && k > 0 && ticks[k].snap.connected
    && var o := cron.next(r.cron, ticks[LastLookup(cron, r, ticks, k)].now);
       o.Some? && o.value <= ticks[k].now
  }

  predicate NewSchedule(st: RuleState) { st.rule.enabled && st.scheduled && st.nextCron.None? }

  lemma {:induction false} PendingExactly(cron: Cron, st: RuleState, ticks: seq<Tick>, k: nat)
    requires NewSchedule(st) && k <= |ticks|
    ensures StateAt(cron, st, ticks, k).nextCron ==
            if k == 0 then None else cron.next(st.rule.cron, ticks[LastLookup(cron, st.rule, ticks, k)].now)
  {
    if k > 0 {
      var j, r := k - 1, st.rule;
      PendingExactly(cron, st, ticks, j);
      var before := StateAt(cron, st, ticks, j);
      assert StateAt(cron, st, ticks, k) == TickRule(cron, before, ticks[j].snap, ticks[j].now).0;
      if LooksUp(cron, r, ticks, j) {
        assert LastLookup(cron, r, ticks, k) == j;
        assert Occurs(cron, r, ticks, j) ==> before.nextCron.Some? && before.nextCron.value <= ticks[j].now;
      } else {
        assert LastLookup(cron, r, ticks, k) == LastLookup(cron, r, ticks, j);
        assert before.nextCron.Some? && !Occurs(cron, r, ticks, j);
        assert ticks[j].now < before.nextCron.value;
      }
    }
  }

  /** A schedule rule fires at a tick if and only if it is connected there and the
      occurrence found by its last look-up has come. */
  lemma ScheduleFiresExactly(cron: Cron, st: RuleState, ticks: seq<Tick>, k: nat)
    requires NewSchedule(st) && k < |ticks|
    ensures FiresAt(cron, st, ticks, k) <==> Occurs(cron, st.rule, ticks, k)
  {
    PendingExactly(cron, st, ticks, k);
  }

  // --------------------------------------------------------------- the engine

  lemma {:induction false} DisabledStays(cron: Cron, st: RuleState, ticks: seq<Tick>, k: nat)
    requires !st.rule.enabled && k <= |ticks|
    ensures StateAt(cron, st, ticks, k) == st
  {
    if k > 0 { DisabledStays(cron, st, ticks, k - 1); }
  }

  ghost predicate Wanted(cron: Cron, r: Rule, ticks: seq<Tick>, k: nat)
    requires k < |ticks|
  {
    r.enabled && if r.condition == Schedule then Occurs(cron, r, ticks, k) else CalledFor(r, ticks, k)
  }

  lemma NewRuleFires(cron: Cron, r: Rule, ticks: seq<Tick>, k: nat)
    requires k < |ticks|
    ensures FiresAt(cron, NewState(r), ticks, k) <==> Wanted(cron, r, ticks, k)
  {
    if !r.enabled {
      DisabledStays(cron, NewState(r), ticks, k);
    } else if r.condition == Schedule {
      ScheduleFiresExactly(cron, NewState(r), ticks, k);
    } else {
      FiresExactly(cron, NewState(r), ticks, k);
    }
  }

  /** Whatever other rules and reloads do, the engine's log of a rule lists, in order,
      exactly the ticks at which its history calls for a firing. */
  lemma EngineFiresExactly(cron: Cron, states: States, r: Rule, evs: seq<Event>) returns (ks: seq<nat>)
    requires Only(states, NewState(r)) && Keeps(cron, r, evs)
    ensures Increasing(ks) && LoggedAt(Of(r.name, Log(cron, states, evs)), r, TicksOf(evs), ks)
    ensures forall k: nat :: k < |TicksOf(evs)| ==> (k in ks <==> Wanted(cron, r, TicksOf(evs), k))
  {
    var st, ticks := NewState(r), TicksOf(evs);
    ReloadInvisible(cron, states, st, evs);
    ks := AloneTicks(cron, st, evs);
    var p := Pattern(cron, st, ticks);
    forall k: nat | k < |ticks| ensures k in ks <==> Wanted(cron, r, ticks, k) {
      NewRuleFires(cron, r, ticks, k);
      assert p[k] <==> FiresAt(cron, st, ticks, k);
    }
  }

  /** A reload that changes a rule keeps its hold, its arming and its last firing, and
      its pending occurrence if it stays a schedule; a new name starts afresh. */
  lemma ReloadCarries(cron: Cron, states: States, rules: seq<Rule>, i: nat, was: RuleState)
    requires Build(cron, rules).Some? && i < |rules|
    ensures var next := SetRules(cron, states, rules).value;
            && |next| == |rules| && next[i].rule == rules[i]
            && (Only(states, was) && was.rule.name == rules[i].name ==>
                  && next[i].armed == was.armed && next[i].lastFired == was.lastFired
                  && next[i].holdStart == was.holdStart
                  && next[i].nextCron == if was.scheduled && rules[i].condition == Schedule then was.nextCron else None)
            && ((forall k :: 0 <= k < |states| ==> states[k].rule.name != rules[i].name) ==>
                  next[i] == NewState(rules[i]))
  {
    BuildStates(cron, rules);
    if Only(states, was) && was.rule.name == rules[i].name {
      var k :| At(states, was, k);
      LookupOnly(states, was, k);
    }
    if forall k :: 0 <= k < |states| ==> states[k].rule.name != rules[i].name { LookupNone(states, rules[i].name); }
  }

  lemma {:induction false} LookupNone(states: States, name: string)
    requires forall k :: 0 <= k < |states| ==> states[k].rule.name != name
    ensures Lookup(states, name).None?
    decreases |states|
  {
    if states != [] { LookupNone(states[..|states| - 1], name); }
  }
}
