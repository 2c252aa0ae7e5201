/** The automation rule engine: hold, arm, hysteresis, repeat and cron, driven by
    ticks.  Times and durations are integers, Go's zero time is None, and a
    measured value may be NaN, which no comparison accepts. */
module Rules {
  import opened Base

  datatype Float = NaN | Num(v: real)

  predicate Lt(a: Float, b: Float) { a.Num? && b.Num? && a.v < b.v }
  predicate Ge(a: Float, b: Float) { a.Num? && b.Num? && a.v >= b.v }

  function Plus(a: Float, m: int): Float { if a.Num? then Num(a.v + m as real) else NaN }

  datatype Battery = Battery(level: nat, status: int)
  datatype DCPort = DCPort(watts: Float)
  datatype TypeCPort = TypeCPort(watts: Float, temp: Float, dcInput: bool)
  datatype Snapshot = Snapshot(battery: Option<Battery>, dc: Option<DCPort>, typeC: Option<TypeCPort>, connected: bool)

  datatype Condition = InputPower | BatteryLevel | PortPower | Temperature | Schedule | OtherCondition(text: string)
  datatype Port = Dc | Usbc | OtherPort(text: string)

  datatype Rule = Rule(name: string, enabled: bool, condition: Condition, present: bool, below: bool, port: Port,
                       percent: int, watts: Float, temp: Float, hold: int, repeatEvery: int, margin: int,
                       cron: string, actions: seq<string>)

  /** The cron library: which texts parse, and the next occurrence, if any. */
  datatype Cron = Cron(parses: string -> bool, next: (string, int) -> Option<int>)

  ghost predicate StrictlyLater(cron: Cron) {
    forall text, now :: cron.next(text, now).Some? ==> cron.next(text, now).value > now
  }

  datatype RuleState = RuleState(rule: Rule, scheduled: bool, nextCron: Option<int>, holdStart: Option<int>,
      armed: bool, lastFired: Option<int>)

  // -------------------------------------------------------------- conditions

  predicate ConditionTrue(r: Rule, s: Snapshot) {
    match r.condition
    case InputPower =>
      var present := (s.battery.Some? && s.battery.value.status == 1) || (s.typeC.Some? && s.typeC.value.dcInput);
      if r.present then present else !present
    case BatteryLevel =>
      s.battery.Some? && if r.below then s.battery.value.level < r.percent else s.battery.value.level > r.percent
    case PortPower =>
      if r.port == Dc && s.dc.Some? then Beyond(r.below, s.dc.value.watts, r.watts)
      else if r.port == Usbc && s.typeC.Some? then Beyond(r.below, s.typeC.value.watts, r.watts)
      else false
    case Temperature => s.typeC.Some? && Beyond(r.below, s.typeC.value.temp, r.temp)
    case _ => false
  }

  predicate Beyond(below: bool, x: Float, limit: Float) { if below then Lt(x, limit) else Lt(limit, x) }

  predicate RearmTrue(r: Rule, s: Snapshot) {
    if r.condition == BatteryLevel && s.battery.Some? then
      if r.below then s.battery.value.level >= r.percent + r.margin else s.battery.value.level <= r.percent - r.margin
    else if r.condition == Temperature && s.typeC.Some? then
      if r.below then Ge(s.typeC.value.temp, Plus(r.temp, r.margin))
          else Ge(Plus(r.temp, -r.margin), s.typeC.value.temp)
    else !ConditionTrue(r, s)
  }

  // -------------------------------------------------------- one rule, one tick

  function TickRule(cron: Cron, st: RuleState, snap: Snapshot, now: int): (RuleState, bool) {
    if !st.rule.enabled then (st, false)
    else if !snap.connected then
      (st.(holdStart := None, nextCron := if st.scheduled then cron.next(st.rule.cron, now) else st.nextCron), false)
    else if st.scheduled then
      if st.nextCron.None? then (st.(nextCron := cron.next(st.rule.cron, now)), false)
      else if now >= st.nextCron.value then (st.(lastFired := Some(now), nextCron := cron.next(st.rule.cron, now)),
          true)
      else (st, false)
    else if ConditionTrue(st.rule, snap) then
      var start := if st.holdStart.None? then now else st.holdStart.value;
      var held := now - start >= st.rule.hold;
      var canRepeat := st.rule.repeatEvery > 0 && st.lastFired.Some? && now - st.lastFired.value >= st.rule.repeatEvery;
      if held && (st.armed || canRepeat) then (st.(holdStart := Some(start), armed := false, lastFired := Some(now)),
          true)
      else (st.(holdStart := Some(start)), false)
    else (st.(holdStart := None, armed := st.armed || RearmTrue(st.rule, snap)), false)
  }

  datatype Tick = Tick(snap: Snapshot, now: int)

  /** The state in which tick `i` finds the rule. */
  function StateAt(cron: Cron, st: RuleState, ticks: seq<Tick>, i: nat): (r: RuleState)
    requires i <= |ticks|
    ensures r.rule == st.rule && r.scheduled == st.scheduled
  {
    if i == 0 then st else TickRule(cron, StateAt(cron, st, ticks, i - 1), ticks[i - 1].snap, ticks[i - 1].now).0
  }

  predicate FiresAt(cron: Cron, st: RuleState, ticks: seq<Tick>, i: nat)
    requires i < |ticks|
  {
    TickRule(cron, StateAt(cron, st, ticks, i), ticks[i].snap, ticks[i].now).1
  }

  // -------------------------------------------------------------------- hold

  predicate Satisfied(r: Rule, t: Tick) { t.snap.connected && ConditionTrue(r, t.snap) }

  /** The beginning of the unbroken run of satisfied ticks that ends at `k`. */
  function RunStart(r: Rule, ticks: seq<Tick>, k: nat): (s: nat)
    requires k < |ticks| && Satisfied(r, ticks[k])
    ensures s <= k && forall i :: s <= i <= k ==> Satisfied(r, ticks[i])
    ensures s > 0 ==> !Satisfied(r, ticks[s - 1])
  {
    if k > 0 && Satisfied(r, ticks[k - 1]) then RunStart(r, ticks, k - 1) else k
  }

  predicate FreshRule(st: RuleState) { st.rule.enabled && !st.scheduled && st.holdStart.None? }

  /** The hold timer always dates from the start of the current unbroken run. */
  lemma {:induction false} HoldDatesFromRun(cron: Cron, st: RuleState, ticks: seq<Tick>, i: nat)
    requires FreshRule(st) && i <= |ticks|
    ensures StateAt(cron, st, ticks, i).holdStart ==
            if i > 0 && Satisfied(st.rule, ticks[i - 1]) then Some(ticks[RunStart(st.rule, ticks, i - 1)].now) else None
  {
    if i > 0 { HoldDatesFromRun(cron, st, ticks, i - 1); }
  }

  /** A rule fires only while connected with its condition true, and only once
      the unbroken run of such ticks has lasted the hold time: a disconnected or
      unsatisfied tick in between restarts the hold. */
  lemma FiresOnlyAfterHold(cron: Cron, st: RuleState, ticks: seq<Tick>, k: nat)
    requires FreshRule(st) && k < |ticks| && FiresAt(cron, st, ticks, k)
    ensures Satisfied(st.rule, ticks[k])
    ensures var s := RunStart(st.rule, ticks, k);
            && ticks[k].now - ticks[s].now >= st.rule.hold
            && forall i :: s <= i <= k ==> Satisfied(st.rule, ticks[i])
  {
    HoldDatesFromRun(cron, st, ticks, k);
  }

  // ------------------------------------------------------------------ repeat

  predicate Rearms(r: Rule, t: Tick) { t.snap.connected && !ConditionTrue(r, t.snap) && RearmTrue(r, t.snap) }

  /** Between firings the time of the last one is kept, and the rule stays
      disarmed until a connected tick satisfies the re-arm condition. */
  lemma {:induction false} DisarmedUntilRearm(cron: Cron, st: RuleState, ticks: seq<Tick>, i: nat, j: nat)
    requires !st.scheduled && i < j <= |ticks| && FiresAt(cron, st, ticks, i)
    requires forall k :: i < k < j ==> !FiresAt(cron, st, ticks, k)
    ensures var s := StateAt(cron, st, ticks, j);
            && s.lastFired == Some(ticks[i].now)
            && (s.armed ==> exists k :: i < k < j && Rearms(st.rule, ticks[k]))
  {
    if j > i + 1 {
      DisarmedUntilRearm(cron, st, ticks, i, j - 1);
      var s, s' := StateAt(cron, st, ticks, j - 1), StateAt(cron, st, ticks, j);
      if s'.armed && !s.armed {
        assert Rearms(st.rule, ticks[j - 1]);
      }
      assert !FiresAt(cron, st, ticks, j - 1);
    }
  }

  /** Two successive firings are at least RepeatEvery apart (when it is positive)
      or separated by a connected re-arm tick. */
  lemma SuccessiveFirings(cron: Cron, st: RuleState, ticks: seq<Tick>, i: nat, j: nat)
    requires !st.scheduled && i < j < |ticks|
    requires FiresAt(cron, st, ticks, i) && FiresAt(cron, st, ticks, j)
    requires forall k :: i < k < j ==> !FiresAt(cron, st, ticks, k)
    ensures (st.rule.repeatEvery > 0 && ticks[j].now - ticks[i].now >= st.rule.repeatEvery) ||
            exists k :: i < k < j && Rearms(st.rule, ticks[k])
  {
    DisarmedUntilRearm(cron, st, ticks, i, j);
  }

  /** Telemetry once set is never unset. */
  ghost predicate NeverUnset(ticks: seq<Tick>) {
    forall a, b :: 0 <= a < b < |ticks| ==>
      && (ticks[a].snap.battery.Some? ==> ticks[b].snap.battery.Some?)
      && (ticks[a].snap.typeC.Some? ==> ticks[b].snap.typeC.Some?)
  }

  function Max(a: int, b: int): int { if a < b then b else a }

  /** The measurement has receded past the threshold by the margin. */
  predicate Receded(r: Rule, s: Snapshot) {
    match r.condition
    case BatteryLevel =>
      s.battery.Some? && if r.below then s.battery.value.level >= r.percent + Max(r.margin, 0)
                                    else s.battery.value.level <= r.percent - Max(r.margin, 0)
    case Temperature =>
      s.typeC.Some? && if r.below then Ge(s.typeC.value.temp, Plus(r.temp, Max(r.margin, 0)))
                                  else Ge(Plus(r.temp, -Max(r.margin, 0)), s.typeC.value.temp)
    case _ => !ConditionTrue(r, s)
  }

  /** Hysteresis: without a repeat, a battery or temperature rule fires again only
      after a connected tick at least the margin away from its threshold. */
  lemma Hysteresis(cron: Cron, st: RuleState, ticks: seq<Tick>, i: nat, j: nat)
    requires !st.scheduled && i < j < |ticks| && NeverUnset(ticks)
    requires FiresAt(cron, st, ticks, i) && FiresAt(cron, st, ticks, j)
    requires forall k :: i < k < j ==> !FiresAt(cron, st, ticks, k)
    ensures (st.rule.repeatEvery > 0 && ticks[j].now - ticks[i].now >= st.rule.repeatEvery) ||
            exists k :: i < k < j && ticks[k].snap.connected && Receded(st.rule, ticks[k].snap)
  {
    SuccessiveFirings(cron, st, ticks, i, j);
    if k :| i < k < j && Rearms(st.rule, ticks[k]) {
      assert ConditionTrue(st.rule, ticks[i].snap);
      assert ticks[k].snap.connected && Receded(st.rule, ticks[k].snap);
    }
  }

  /** The reading the rule looks at is not there. */
  predicate Missing(r: Rule, s: Snapshot) {
    (r.condition == BatteryLevel && s.battery.None?) || (r.condition == Temperature && s.typeC.None?)
  }

  /** A rule is re-armed exactly by a connected tick whose reading has receded (by
      the margin, for a battery or temperature rule) or is missing. */
  lemma RearmsExactly(r: Rule, t: Tick)
    ensures Rearms(r, t) <==> t.snap.connected && (Receded(r, t.snap) || Missing(r, t.snap))
    ensures !(Receded(r, t.snap) && Missing(r, t.snap))
  {}

  predicate RepeatApart(r: Rule, ticks: seq<Tick>, i: nat, j: nat)
    requires i < |ticks| && j < |ticks|
  {
    r.repeatEvery > 0 && ticks[j].now - ticks[i].now >= r.repeatEvery
  }

  ghost predicate RecededBetween(r: Rule, ticks: seq<Tick>, i: nat, j: nat)
    requires i < j < |ticks|
  {
    exists k :: i < k < j && ticks[k].snap.connected && Receded(r, ticks[k].snap)
  }

  /** Without any assumption on telemetry: successive firings closer than
      RepeatEvery have a connected tick between them that receded or lacked the
      reading, and hysteresis fails exactly when every re-arming tick lacked it. */
  lemma HysteresisExactly(cron: Cron, st: RuleState, ticks: seq<Tick>, i: nat, j: nat)
    requires !st.scheduled && i < j < |ticks|
    requires FiresAt(cron, st, ticks, i) && FiresAt(cron, st, ticks, j)
    requires forall k :: i < k < j ==> !FiresAt(cron, st, ticks, k)
    ensures RepeatApart(st.rule, ticks, i, j) ||
            exists k :: i < k < j && ticks[k].snap.connected
                && (Receded(st.rule, ticks[k].snap) || Missing(st.rule, ticks[k].snap))
    ensures !(RepeatApart(st.rule, ticks, i, j) || RecededBetween(st.rule, ticks, i, j)) <==>
            && !RepeatApart(st.rule, ticks, i, j)
            && forall k :: i < k < j && Rearms(st.rule, ticks[k]) ==> Missing(st.rule, ticks[k].snap)
  {
    SuccessiveFirings(cron, st, ticks, i, j);
    forall k | i < k < j
      ensures Rearms(st.rule, ticks[k]) <==>
              ticks[k].snap.connected && (Receded(st.rule, ticks[k].snap) || Missing(st.rule, ticks[k].snap))
      ensures !(Receded(st.rule, ticks[k].snap) && Missing(st.rule, ticks[k].snap))
    {
      RearmsExactly(st.rule, ticks[k]);
    }
  }

  /** The assumption is needed: a battery reading that disappears re-arms the rule
      without any level having been seen. */
  lemma HysteresisNeedsTelemetry(cron: Cron)
    ensures exists st, ticks: seq<Tick> ::
              && FreshRule(st) && st.rule.condition == BatteryLevel && st.rule.repeatEvery == 0 && |ticks| == 3
              && FiresAt(cron, st, ticks, 0) && !FiresAt(cron, st, ticks, 1) && FiresAt(cron, st, ticks, 2)
              && !Receded(st.rule, ticks[1].snap)
  {
    var r := Rule("low", true, BatteryLevel, false, true, Dc, 20, NaN, NaN, 0, 0, 5, "", []);
    var st := RuleState(r, false, None, None, true, None);
    var low := Snapshot(Some(Battery(10, 0)), None, None, true);
    var ticks := [Tick(low, 1), Tick(low.(battery := None), 2), Tick(low, 3)];
    assert StateAt(cron, st, ticks, 0) == st;
    var st1 := st.(holdStart := Some(1), armed := false, lastFired := Some(1));
    assert StateAt(cron, st, ticks, 1) == st1;
    assert StateAt(cron, st, ticks, 2) == st1.(holdStart := None, armed := true);
    assert FiresAt(cron, st, ticks, 0) && !FiresAt(cron, st, ticks, 1) && FiresAt(cron, st, ticks, 2);
  }

  // -------------------------------------------------------------------- cron

  /** The next occurrence a schedule rule waits for was computed at a tick since
      which it has been connected throughout and has not fired. */
  lemma {:induction false} ScheduleWaits(cron: Cron, st: RuleState, ticks: seq<Tick>, j: nat) returns (m: nat)
    requires st.rule.enabled && st.scheduled && st.nextCron.None?
    requires j <= |ticks| && StateAt(cron, st, ticks, j).nextCron.Some?
    ensures m < j && cron.next(st.rule.cron, ticks[m].now) == StateAt(cron, st, ticks, j).nextCron
    ensures forall k :: m < k < j ==> ticks[k].snap.connected && !FiresAt(cron, st, ticks, k)
  {
    var s := StateAt(cron, st, ticks, j - 1);
    var t := ticks[j - 1];
    if t.snap.connected && s.nextCron.Some? && t.now < s.nextCron.value {
      m := ScheduleWaits(cron, st, ticks, j - 1);
      assert !FiresAt(cron, st, ticks, j - 1);
    } else {
      m := j - 1;
    }
  }

  /** A schedule rule fires only for an occurrence that fell after some earlier
      tick, with no disconnection and no firing since that tick: none that passed
      while disconnected fires. */
  lemma ScheduleFiresForOccurrence(cron: Cron, st: RuleState, ticks: seq<Tick>, j: nat)
    requires StrictlyLater(cron) && st.rule.enabled && st.scheduled && st.nextCron.None?
    requires j < |ticks| && FiresAt(cron, st, ticks, j)
    ensures exists m: nat :: Occurrence(cron, st, ticks, m, j)
  {
    var m := ScheduleWaits(cron, st, ticks, j);
    assert Occurrence(cron, st, ticks, m, j);
  }

  ghost predicate Occurrence(cron: Cron, st: RuleState, ticks: seq<Tick>, m: nat, j: nat)
    requires j < |ticks|
  {
    && m < j && cron.next(st.rule.cron, ticks[m].now).Some?
    && ticks[m].now < cron.next(st.rule.cron, ticks[m].now).value <= ticks[j].now
    && forall k :: m < k < j ==> ticks[k].snap.connected && !FiresAt(cron, st, ticks, k)
  }

  /** The occurrence a schedule rule fires for. */
  function Due(cron: Cron, st: RuleState, ticks: seq<Tick>, j: nat): int
    requires j < |ticks| && st.scheduled && FiresAt(cron, st, ticks, j)
  {
    StateAt(cron, st, ticks, j).nextCron.value
  }

  /** Next finds the least occurrence after a time. */
  ghost predicate LeastNext(cron: Cron) {
    && StrictlyLater(cron)
    && forall text, x, y :: cron.next(text, x).Some? && x <= y < cron.next(text, x).value ==>
      cron.next(text, y) == cron.next(text, x)
  }

  /** Of two firings the later one is for a later occurrence if and only if the tick
      at which its occurrence was looked up read a time not before the first one. */
  lemma OccurrencesIncreaseExactly(cron: Cron, st: RuleState, ticks: seq<Tick>, i: nat, j: nat) returns (m: nat)
    requires LeastNext(cron) && st.rule.enabled && st.scheduled && st.nextCron.None?
    requires i < j < |ticks| && FiresAt(cron, st, ticks, i) && FiresAt(cron, st, ticks, j)
    ensures i <= m < j && cron.next(st.rule.cron, ticks[m].now) == Some(Due(cron, st, ticks, j))
    ensures Due(cron, st, ticks, i) < Due(cron, st, ticks, j) <==> Due(cron, st, ticks, i) <= ticks[m].now
  {
    m := ScheduleWaits(cron, st, ticks, j);
    var l := ScheduleWaits(cron, st, ticks, i);
    var o, n := Due(cron, st, ticks, i), Due(cron, st, ticks, j);
    assert cron.next(st.rule.cron, ticks[l].now) == Some(o) && cron.next(st.rule.cron, ticks[m].now) == Some(n);
    NextBefore(cron, st.rule.cron, ticks[l].now, ticks[m].now);
  }

  lemma NextBefore(cron: Cron, text: string, x: int, y: int)
    requires LeastNext(cron) && cron.next(text, x).Some? && cron.next(text, y).Some?
    ensures y < cron.next(text, x).value ==> cron.next(text, y).value <= cron.next(text, x).value
  {
    if y < x < cron.next(text, y).value { assert cron.next(text, x) == cron.next(text, y); }
  }

  /** So with a clock that never goes back each occurrence fires at most once. */
  lemma EachOccurrenceOnce(cron: Cron, st: RuleState, ticks: seq<Tick>, i: nat, j: nat)
    requires LeastNext(cron) && st.rule.enabled && st.scheduled && st.nextCron.None?
    requires i < j < |ticks| && FiresAt(cron, st, ticks, i) && FiresAt(cron, st, ticks, j)
    requires forall a, b :: 0 <= a <= b < |ticks| ==> ticks[a].now <= ticks[b].now
    ensures Due(cron, st, ticks, i) < Due(cron, st, ticks, j)
  {
    var m := OccurrencesIncreaseExactly(cron, st, ticks, i, j);
    assert ticks[i].now <= ticks[m].now;
  }

  const EVERY_TEN := Cron(_ => true, (_, n) => Some((n / 10 + 1) * 10))

  /** With one that does, an occurrence can fire twice: the clock is set back while
      the device is disconnected. */
  lemma BackwardClockRepeats()
    ensures LeastNext(EVERY_TEN)
    ensures exists st: RuleState, ticks: seq<Tick> ::
              && st.rule.enabled && st.scheduled && st.nextCron.None? && |ticks| == 4
              && FiresAt(EVERY_TEN, st, ticks, 1) && FiresAt(EVERY_TEN, st, ticks, 3)
              && Due(EVERY_TEN, st, ticks, 1) == Due(EVERY_TEN, st, ticks, 3)
  {
    var cron := EVERY_TEN;
    var r := Rule("nightly", true, Schedule, false, false, Dc, 0, NaN, NaN, 0, 0, 0, "", []);
    var st := RuleState(r, true, None, None, true, None);
    var on := Snapshot(None, None, None, true);
    var ticks := [Tick(on, 5), Tick(on, 10), Tick(on.(connected := false), 3), Tick(on, 10)];
    var st1 := st.(nextCron := Some(10));
    var st2 := st.(nextCron := Some(20), lastFired := Some(10));
    assert StateAt(cron, st, ticks, 0) == st;
    assert StateAt(cron, st, ticks, 1) == st1;
    assert StateAt(cron, st, ticks, 2) == st2;
    assert StateAt(cron, st, ticks, 3) == st2.(nextCron := Some(10));
    assert FiresAt(cron, st, ticks, 1) && FiresAt(cron, st, ticks, 3);
  }
}
