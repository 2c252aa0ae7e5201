/** The engine around the rules: ticking a list of them and reloading the list. */
module RuleEngine {
  import opened Base
  import opened Rules

  type States = seq<RuleState>

  datatype Firing = Firing(rule: Rule, at: int)

  predicate Parses(cron: Cron, r: Rule) { r.condition != Schedule || cron.parses(r.cron) }

  function NewState(r: Rule): RuleState { RuleState(r, r.condition == Schedule, None, None, true, None) }

  /** build: fails as a whole when some schedule does not parse. */
  function Build(cron: Cron, rules: seq<Rule>): Option<States>
    decreases |rules|
  {
    if rules == [] then Some([])
    else if !Parses(cron, rules[0]) then None
    else match Build(cron, rules[1..])
      case None => None
      case Some(rest) => Some([NewState(rules[0])] + rest)
  }

  /** The last state of that name, as the map built by SetRules keeps it. */
  function Lookup(states: States, name: string): Option<RuleState>
    decreases |states|
  {
    if states == [] then None
    else if states[|states| - 1].rule.name == name then Some(states[|states| - 1])
    else Lookup(states[..|states| - 1], name)
  }

  function Carry(prior: Option<RuleState>, s: RuleState): RuleState {
    match prior
    case None => s
    case Some(o) =>
      s.(armed := o.armed, lastFired := o.lastFired, holdStart := o.holdStart,
         nextCron := if s.scheduled && o.scheduled then o.nextCron else s.nextCron)
  }

  function SetRules(cron: Cron, states: States, rules: seq<Rule>): Option<States> {
    match Build(cron, rules)
    case None => None
    case Some(built) => Some(seq(|built|, i requires 0 <= i < |built| => Carry(Lookup(states, built[i].rule.name),
        built[i])))
  }

  function TickAll(cron: Cron, states: States, snap: Snapshot, now: int): States {
    seq(|states|, i requires 0 <= i < |states| => TickRule(cron, states[i], snap, now).0)
  }

  function Fired(cron: Cron, states: States, snap: Snapshot, now: int): seq<Firing>
    decreases |states|
  {
    if states == [] then []
    else
      var last := states[|states| - 1];
      Fired(cron, states[..|states| - 1], snap, now) +
      (if TickRule(cron, last, snap, now).1 then [Firing(last.rule, now)] else [])
  }

  // -------------------------------------------------------------- whole runs

  datatype Event = Ticked(tick: Tick) | Reload(rules: seq<Rule>)

  function Step(cron: Cron, states: States, ev: Event): States {
    match ev
    case Ticked(t) => TickAll(cron, states, t.snap, t.now)
    case Reload(rules) => var r := SetRules(cron, states, rules); if r.Some? then r.value else states
  }

  function Log(cron: Cron, states: States, evs: seq<Event>): seq<Firing>
    decreases |evs|
  {
    if evs == [] then []
    else
      (if evs[0].Ticked? then Fired(cron, states, evs[0].tick.snap, evs[0].tick.now) else []) +
      Log(cron, Step(cron, states, evs[0]), evs[1..])
  }

  function Of(name: string, log: seq<Firing>): seq<Firing> {
    if log == [] then [] else (if log[0].rule.name == name then [log[0]] else []) + Of(name, log[1..])
  }

  /** What one rule does on its own over the ticks of a run. */
  function Alone(cron: Cron, st: RuleState, evs: seq<Event>): seq<Firing>
    decreases |evs|
  {
    if evs == [] then []
    else match evs[0]
      case Ticked(t) =>
        var r := TickRule(cron, st, t.snap, t.now);
        (if r.1 then [Firing(st.rule, t.now)] else []) + Alone(cron, r.0, evs[1..])
      case Reload(_) => Alone(cron, st, evs[1..])
  }

  /** A run whose every successful reload keeps the rule, under names that are distinct. */
  ghost predicate Keeps(cron: Cron, r: Rule, evs: seq<Event>) {
    forall ev :: ev in evs && ev.Reload? && Build(cron, ev.rules).Some? ==> Distinct(ev.rules) && r in ev.rules
  }

  ghost predicate Distinct(rules: seq<Rule>) {
    forall i, j :: 0 <= i < j < |rules| ==> rules[i].name != rules[j].name
  }

  /** Exactly one state carries the name, and it is this one. */
  ghost predicate Only(states: States, st: RuleState) {
    exists k :: At(states, st, k)
  }

  ghost predicate At(states: States, st: RuleState, k: int) {
    && 0 <= k < |states| && states[k] == st
    && forall i :: 0 <= i < |states| && i != k ==> states[i].rule.name != st.rule.name
  }

  // ---------------------------------------------------------------- locality

  lemma {:induction false} OfAppend(name: string, a: seq<Firing>, b: seq<Firing>)
    ensures Of(name, a + b) == Of(name, a) + Of(name, b)
    decreases |a|
  {
    if a == [] {
      assert a + b == b;
    } else {
      var all := a + b;
      assert all[0] == a[0] && all[1..] == a[1..] + b;
      OfAppend(name, a[1..], b);
      var head := if a[0].rule.name == name then [a[0]] else [];
      assert Of(name, all) == head + Of(name, all[1..]) && Of(name, a) == head + Of(name, a[1..]);
      assert head + (Of(name, a[1..]) + Of(name, b)) == head + Of(name, a[1..]) + Of(name, b);
    }
  }

  function FiredBy(cron: Cron, st: RuleState, snap: Snapshot, now: int): seq<Firing> {
    if TickRule(cron, st, snap, now).1 then [Firing(st.rule, now)] else []
  }

  lemma OfOne(cron: Cron, st: RuleState, snap: Snapshot, now: int, name: string)
    ensures Of(name, FiredBy(cron, st, snap, now)) == if st.rule.name == name then FiredBy(cron, st, snap, now) else []
  {
    var f := FiredBy(cron, st, snap, now);
    if f != [] {
      assert f[1..] == [] && Of(name, []) == [];
      assert Of(name, f) == (if f[0].rule.name == name then [f[0]] else []) + Of(name, f[1..]);
    }
  }

  /** The last state's firings come last. */
  lemma FiredLast(cron: Cron, states: States, snap: Snapshot, now: int, name: string)
    requires states != []
    ensures var last := states[|states| - 1];
            Of(name, Fired(cron, states, snap, now)) ==
            Of(name, Fired(cron, states[..|states| - 1], snap, now))
            + (if last.rule.name == name then FiredBy(cron, last, snap, now) else [])
  {
    var last := states[|states| - 1];
    OfOne(cron, last, snap, now, name);
    OfAppend(name, Fired(cron, states[..|states| - 1], snap, now), FiredBy(cron, last, snap, now));
  }

  lemma {:induction false} FiredNone(cron: Cron, states: States, snap: Snapshot, now: int, name: string)
    requires forall i :: 0 <= i < |states| ==> states[i].rule.name != name
    ensures Of(name, Fired(cron, states, snap, now)) == []
    decreases |states|
  {
    if states != [] {
      FiredNone(cron, states[..|states| - 1], snap, now, name);
      FiredLast(cron, states, snap, now, name);
    }
  }

  lemma {:induction false} FiredOf(cron: Cron, states: States, st: RuleState, k: int, snap: Snapshot, now: int)
    requires At(states, st, k)
    ensures Of(st.rule.name, Fired(cron, states, snap, now)) == FiredBy(cron, st, snap, now)
    decreases |states|
  {
    var n := |states| - 1;
    FiredLast(cron, states, snap, now, st.rule.name);
    if k == n {
      FiredNone(cron, states[..n], snap, now, st.rule.name);
      assert [] + FiredBy(cron, st, snap, now) == FiredBy(cron, st, snap, now);
    } else {
      FiredOf(cron, states[..n], st, k, snap, now);
      assert FiredBy(cron, st, snap, now) + [] == FiredBy(cron, st, snap, now);
    }
  }

  lemma {:induction false} LookupOnly(states: States, st: RuleState, k: int)
    requires At(states, st, k)
    ensures Lookup(states, st.rule.name) == Some(st)
    decreases |states|
  {
    if k < |states| - 1 { LookupOnly(states[..|states| - 1], st, k); }
  }

  lemma {:induction false} BuildStates(cron: Cron, rules: seq<Rule>)
    ensures Build(cron, rules).Some? <==> forall r :: r in rules ==> Parses(cron, r)
    ensures var b := Build(cron, rules);
            b.Some? ==> |b.value| == |rules| && forall i :: 0 <= i < |rules| ==> b.value[i] == NewState(rules[i])
    decreases |rules|
  {
    if rules != [] {
      BuildStates(cron, rules[1..]);
      assert rules[0] in rules && forall r :: r in rules[1..] ==> r in rules;
    }
  }

  /** A reload leaves the state of a rule that is still listed exactly as it was. */
  lemma ReloadKeepsState(cron: Cron, states: States, st: RuleState, rules: seq<Rule>)
    requires Only(states, st) && Shaped(st)
    requires Build(cron, rules).Some? && Distinct(rules) && st.rule in rules
    ensures SetRules(cron, states, rules).Some? && Only(SetRules(cron, states, rules).value, st)
  {
    var k :| At(states, st, k);
    LookupOnly(states, st, k);
    BuildStates(cron, rules);
    var next := SetRules(cron, states, rules).value;
    var i :| 0 <= i < |rules| && rules[i] == st.rule;
    assert next[i] == st;
    forall j | 0 <= j < |next| && j != i ensures next[j].rule.name != st.rule.name {
      assert next[j].rule == rules[j];
    }
    assert At(next, st, i);
  }

  /** What build makes of a rule and every tick preserves. */
  predicate Shaped(st: RuleState) {
    st.scheduled == (st.rule.condition == Schedule) && (st.scheduled || st.nextCron.None?)
  }

  lemma TickKeepsShape(cron: Cron, st: RuleState, t: Tick)
    requires Shaped(st)
    ensures var st' := TickRule(cron, st, t.snap, t.now).0; Shaped(st') && st'.rule == st.rule
  {}

  lemma TickKeepsAt(cron: Cron, states: States, st: RuleState, k: int, t: Tick)
    requires At(states, st, k)
    ensures At(TickAll(cron, states, t.snap, t.now), TickRule(cron, st, t.snap, t.now).0, k)
  {
    forall i | 0 <= i < |states| ensures TickAll(cron, states, t.snap, t.now)[i].rule == states[i].rule {}
  }

  lemma TickKeepsOnly(cron: Cron, states: States, st: RuleState, t: Tick)
    requires Only(states, st)
    ensures Only(TickAll(cron, states, t.snap, t.now), TickRule(cron, st, t.snap, t.now).0)
    ensures Of(st.rule.name, Fired(cron, states, t.snap, t.now)) == FiredBy(cron, st, t.snap, t.now)
  {
    var k :| At(states, st, k);
    FiredOf(cron, states, st, k, t.snap, t.now);
    TickKeepsAt(cron, states, st, k, t);
    assert At(TickAll(cron, states, t.snap, t.now), TickRule(cron, st, t.snap, t.now).0, k);
  }

  lemma LogTicked(cron: Cron, states: States, st: RuleState, t: Tick, evs: seq<Event>)
    requires evs != [] && evs[0] == Ticked(t) && Only(states, st)
    ensures Of(st.rule.name, Log(cron, states, evs)) ==
            (if TickRule(cron, st, t.snap, t.now).1 then [Firing(st.rule, t.now)] else []) +
            Of(st.rule.name, Log(cron, TickAll(cron, states, t.snap, t.now), evs[1..]))
  {
    TickKeepsOnly(cron, states, st, t);
    OfAppend(st.rule.name, Fired(cron, states, t.snap, t.now),
        Log(cron, TickAll(cron, states, t.snap, t.now), evs[1..]));
  }

  // ------------------------------------------------------------- main result

  /** Over any run of ticks, successful reloads that keep the rule, and failed
      reloads, the rule's firings are what it would do alone: other rules and
      reloads are invisible to it. */
  lemma {:induction false} ReloadInvisible(cron: Cron, states: States, st: RuleState, evs: seq<Event>)
    requires Only(states, st) && Keeps(cron, st.rule, evs) && Shaped(st)
    ensures Of(st.rule.name, Log(cron, states, evs)) == Alone(cron, st, evs)
    decreases |evs|
  {
    if evs != [] {
      var ev, rest := evs[0], evs[1..];
      assert ev in evs;
      assert forall e :: e in rest ==> e in evs;
      match ev {
        case Ticked(t) =>
          var st' := TickRule(cron, st, t.snap, t.now).0;
          LogTicked(cron, states, st, t, evs);
          TickKeepsOnly(cron, states, st, t);
          TickKeepsShape(cron, st, t);
          ReloadInvisible(cron, TickAll(cron, states, t.snap, t.now), st', rest);
        case Reload(rules) =>
          var next := Step(cron, states, ev);
          if Build(cron, rules).Some? { ReloadKeepsState(cron, states, st, rules); }
          assert [] + Log(cron, next, rest) == Log(cron, next, rest);
          ReloadInvisible(cron, next, st, rest);
      }
    }
  }

  function TicksOf(evs: seq<Event>): seq<Tick> {
    if evs == [] then [] else (if evs[0].Ticked? then [evs[0].tick] else []) + TicksOf(evs[1..])
  }

  lemma {:induction false} StateAtShift(cron: Cron, st: RuleState, ticks: seq<Tick>, i: nat)
    requires 1 <= i <= |ticks|
    ensures StateAt(cron, st, ticks, i) == StateAt(cron, TickRule(cron, st, ticks[0].snap, ticks[0].now).0, ticks[1..],
            i - 1)
  {
    if i > 1 { StateAtShift(cron, st, ticks, i - 1); }
  }

  /** A firing of the rule alone happened at one of the ticks, at that tick's time. */
  lemma {:induction false} AloneFires(cron: Cron, st: RuleState, evs: seq<Event>, f: Firing) returns (k: nat)
    requires f in Alone(cron, st, evs)
    ensures var ticks := TicksOf(evs); k < |ticks| && FiresAt(cron, st, ticks, k) && f == Firing(st.rule, ticks[k].now)
    decreases |evs|
  {
    var rest := evs[1..];
    match evs[0] {
      case Reload(_) =>
        k := AloneFires(cron, st, rest, f);
        assert TicksOf(evs) == TicksOf(rest);
      case Ticked(t) =>
        var r := TickRule(cron, st, t.snap, t.now);
        var ticks := TicksOf(evs);
        assert ticks[0] == t && ticks[1..] == TicksOf(rest);
        if r.1 && f == Firing(st.rule, t.now) {
          k := 0;
        } else {
          k := AloneFires(cron, r.0, rest, f);
          k := k + 1;
          StateAtShift(cron, st, ticks, k);
        }
    }
  }

  /** The hold guarantee for the engine as a whole: whatever other rules and
      reloads do, a logged firing of the rule comes from a tick that ends an
      unbroken run of connected, satisfied ticks at least as long as the hold. */
  lemma EngineHolds(cron: Cron, states: States, st: RuleState, evs: seq<Event>, f: Firing)
    requires Only(states, st) && Keeps(cron, st.rule, evs) && Shaped(st) && FreshRule(st)
    requires f in Of(st.rule.name, Log(cron, states, evs))
    ensures exists s, k :: HeldRun(st.rule, TicksOf(evs), s, k) && f == Firing(st.rule, TicksOf(evs)[k].now)
  {
    ReloadInvisible(cron, states, st, evs);
    var k := AloneFires(cron, st, evs, f);
    FiresOnlyAfterHold(cron, st, TicksOf(evs), k);
    assert HeldRun(st.rule, TicksOf(evs), RunStart(st.rule, TicksOf(evs), k), k);
  }

  /** At which ticks the rule alone fires. */
  ghost function Pattern(cron: Cron, st: RuleState, ticks: seq<Tick>): seq<bool> {
    seq(|ticks|, i requires 0 <= i < |ticks| => FiresAt(cron, st, ticks, i))
  }

  lemma PatternCons(cron: Cron, st: RuleState, t: Tick, rest: seq<Tick>)
    ensures var (st', fired) := TickRule(cron, st, t.snap, t.now);
            Pattern(cron, st, [t] + rest) == [fired] + Pattern(cron, st', rest)
  {
    var ticks := [t] + rest;
    var (st', fired) := TickRule(cron, st, t.snap, t.now);
    assert ticks[1..] == rest && StateAt(cron, st, ticks, 0) == st;
    forall k: nat | 1 <= k < |ticks| ensures FiresAt(cron, st, ticks, k) <==> FiresAt(cron, st', rest, k - 1) {
      StateAtShift(cron, st, ticks, k);
    }
  }

  ghost predicate Marked(p: seq<bool>, ks: seq<nat>) { forall m :: 0 <= m < |ks| ==> ks[m] < |p| && p[ks[m]] }

  predicate Increasing(ks: seq<nat>) { forall a, b :: 0 <= a < b < |ks| ==> ks[a] < ks[b] }

  ghost predicate Covers(p: seq<bool>, ks: seq<nat>) { forall k :: 0 <= k < |p| && p[k] ==> k in ks }

  /** The marked positions, in order and without omission. */
  ghost predicate Marks(p: seq<bool>, ks: seq<nat>) { Marked(p, ks) && Increasing(ks) && Covers(p, ks) }

  function Later(ks: seq<nat>): seq<nat> { seq(|ks|, m requires 0 <= m < |ks| => ks[m] + 1) }

  lemma MarkedCons(first: bool, p: seq<bool>, ks: seq<nat>)
    requires Marked(p, ks)
    ensures Marked([first] + p, (if first then [0] else []) + Later(ks))
  {
    var head: seq<nat> := if first then [0] else [];
    var all, q := head + Later(ks), [first] + p;
    forall m | 0 <= m < |all| ensures all[m] < |q| && q[all[m]] {
      if m >= |head| { assert all[m] == ks[m - |head|] + 1; }
    }
  }

  lemma IncreasingCons(first: bool, ks: seq<nat>)
    requires Increasing(ks)
    ensures Increasing((if first then [0] else []) + Later(ks))
  {}

  lemma CoversCons(first: bool, p: seq<bool>, ks: seq<nat>)
    requires Covers(p, ks)
    ensures Covers([first] + p, (if first then [0] else []) + Later(ks))
  {
    var head: seq<nat> := if first then [0] else [];
    var all, q := head + Later(ks), [first] + p;
    forall k | 0 <= k < |q| && q[k] ensures k in all {
      if k > 0 {
        assert p[k - 1];
        var m :| 0 <= m < |ks| && ks[m] == k - 1;
        assert all[|head| + m] == k;
      }
    }
  }

  lemma MarksCons(first: bool, p: seq<bool>, ks: seq<nat>)
    requires Marks(p, ks)
    ensures Marks([first] + p, (if first then [0] else []) + Later(ks))
  {
    MarkedCons(first, p, ks);
    IncreasingCons(first, ks);
    CoversCons(first, p, ks);
  }

  ghost predicate LoggedAt(log: seq<Firing>, r: Rule, ticks: seq<Tick>, ks: seq<nat>) {
    |log| == |ks| && forall m :: 0 <= m < |ks| ==> ks[m] < |ticks| && log[m] == Firing(r, ticks[ks[m]].now)
  }

  lemma LoggedCons(log: seq<Firing>, r: Rule, t: Tick, rest: seq<Tick>, ks: seq<nat>, first: bool)
    requires LoggedAt(log, r, rest, ks)
    ensures LoggedAt((if first then [Firing(r, t.now)] else []) + log, r, [t] + rest,
            (if first then [0] else []) + Later(ks))
  {}

  lemma {:induction false} AloneTicks(cron: Cron, st: RuleState, evs: seq<Event>) returns (ks: seq<nat>)
    ensures Marks(Pattern(cron, st, TicksOf(evs)), ks)
    ensures LoggedAt(Alone(cron, st, evs), st.rule, TicksOf(evs), ks)
    decreases |evs|
  {
    if evs == [] {
      ks := [];
    } else {
      var rest := evs[1..];
      match evs[0] {
        case Reload(_) =>
          ks := AloneTicks(cron, st, rest);
          assert TicksOf(evs) == TicksOf(rest);
        case Ticked(t) =>
          var r := TickRule(cron, st, t.snap, t.now);
          var later := AloneTicks(cron, r.0, rest);
          assert TicksOf(evs) == [t] + TicksOf(rest);
          PatternCons(cron, st, t, TicksOf(rest));
          MarksCons(r.1, Pattern(cron, r.0, TicksOf(rest)), later);
          LoggedCons(Alone(cron, r.0, rest), st.rule, t, TicksOf(rest), later, r.1);
          ks := (if r.1 then [0] else []) + Later(later);
      }
    }
  }

  /** Nothing is marked between neighbouring marks. */
  lemma MarksApart(p: seq<bool>, ks: seq<nat>, m: nat)
    requires Marks(p, ks) && m + 1 < |ks|
    ensures ks[m] < ks[m + 1] < |p| && p[ks[m]] && p[ks[m + 1]]
    ensures forall k :: ks[m] < k < ks[m + 1] ==> !p[k]
  {
    forall k | ks[m] < k < ks[m + 1] ensures k !in ks {
      forall n | 0 <= n < |ks| ensures ks[n] != k {
        assert n < m ==> ks[n] < ks[m];
        assert n > m + 1 ==> ks[n] > ks[m + 1];
      }
    }
  }

  /** Two firings that follow each other in the rule's log, and their ticks. */
  ghost predicate Successive(cron: Cron, st: RuleState, ticks: seq<Tick>, f: Firing, g: Firing, i: nat, j: nat) {
    && i < j < |ticks| && FiresAt(cron, st, ticks, i) && FiresAt(cron, st, ticks, j)
    && f == Firing(st.rule, ticks[i].now) && g == Firing(st.rule, ticks[j].now)
    && forall k :: i < k < j ==> !FiresAt(cron, st, ticks, k)
  }

  lemma AloneSuccessive(cron: Cron, st: RuleState, evs: seq<Event>, m: nat) returns (i: nat, j: nat)
    requires m + 1 < |Alone(cron, st, evs)|
    ensures Successive(cron, st, TicksOf(evs), Alone(cron, st, evs)[m], Alone(cron, st, evs)[m + 1], i, j)
  {
    var ticks := TicksOf(evs);
    var ks := AloneTicks(cron, st, evs);
    var p := Pattern(cron, st, ticks);
    MarksApart(p, ks, m);
    i, j := ks[m], ks[m + 1];
    assert p[i] && p[j];
    forall k | i < k < j ensures !FiresAt(cron, st, ticks, k) { assert !p[k]; }
  }

  predicate Recedes(r: Rule, t: Tick) { t.snap.connected && Receded(r, t.snap) }

  /** Apart by the repeat interval, or with a re-arm tick between them; if `strict`,
      with one whose reading has receded. */
  ghost predicate Separated(cron: Cron, st: RuleState, ticks: seq<Tick>, f: Firing, g: Firing, strict: bool) {
    || (st.rule.repeatEvery > 0 && g.at - f.at >= st.rule.repeatEvery)
    || exists i: nat, j: nat, k: nat ::
         && Successive(cron, st, ticks, f, g, i, j) && i < k < j
         && (if strict then Recedes(st.rule, ticks[k]) else Rearms(st.rule, ticks[k]))
  }

  /** The repeat guarantee for the engine as a whole: whatever other rules and
      reloads do, two successive firings of a rule in the log are at least
      RepeatEvery apart or separated by a connected re-arm tick. */
  lemma EngineRearms(cron: Cron, states: States, st: RuleState, evs: seq<Event>, m: nat)
    requires Only(states, st) && Keeps(cron, st.rule, evs) && Shaped(st) && !st.scheduled
    requires m + 1 < |Of(st.rule.name, Log(cron, states, evs))|
    ensures var log := Of(st.rule.name, Log(cron, states, evs));
            Separated(cron, st, TicksOf(evs), log[m], log[m + 1], false)
  {
    ReloadInvisible(cron, states, st, evs);
    var ticks := TicksOf(evs);
    var i, j := AloneSuccessive(cron, st, evs, m);
    SuccessiveFirings(cron, st, ticks, i, j);
  }

  /** And so is hysteresis, if telemetry once set is never unset. */
  lemma EngineHysteresis(cron: Cron, states: States, st: RuleState, evs: seq<Event>, m: nat)
    requires Only(states, st) && Keeps(cron, st.rule, evs) && Shaped(st) && !st.scheduled && NeverUnset(TicksOf(evs))
    requires m + 1 < |Of(st.rule.name, Log(cron, states, evs))|
    ensures var log := Of(st.rule.name, Log(cron, states, evs));
            Separated(cron, st, TicksOf(evs), log[m], log[m + 1], true)
  {
    ReloadInvisible(cron, states, st, evs);
    var ticks := TicksOf(evs);
    var i, j := AloneSuccessive(cron, st, evs, m);
    Hysteresis(cron, st, ticks, i, j);
    if k :| i < k < j && ticks[k].snap.connected && Receded(st.rule, ticks[k].snap) {
      assert Recedes(st.rule, ticks[k]);
    }
  }

  ghost predicate HeldRun(r: Rule, ticks: seq<Tick>, s: int, k: int) {
    0 <= s <= k < |ticks| && ticks[k].now - ticks[s].now >= r.hold && forall i :: s <= i <= k ==> Satisfied(r, ticks[i])
  }

  // -------------------------------------------------------------- the engine

  class Engine {
    var states: States
    const cron: Cron

    constructor (cron: Cron)
      ensures states == [] && this.cron == cron
    {
      this.cron := cron;
      states := [];
    }

    method Tick(snap: Snapshot, now: int) returns (fires: seq<Firing>)
      modifies this`states
      ensures states == TickAll(cron, old(states), snap, now)
      ensures fires == Fired(cron, old(states), snap, now)
    {
      fires := [];
      var i := 0;
      while i < |states|
        invariant 0 <= i <= |states| == |old(states)|
        invariant forall k :: 0 <= k < |states| ==>
                    states[k] == if k < i then TickRule(cron, old(states)[k], snap, now).0 else old(states)[k]
        invariant fires == Fired(cron, old(states)[..i], snap, now)
      {
        var st := states[i];
        var fire := false;
        if st.rule.enabled {
          if !snap.connected {
            st := st.(holdStart := None);
            if st.scheduled { st := st.(nextCron := cron.next(st.rule.cron, now)); }
          } else if st.scheduled {
            if st.nextCron.None? {
              st := st.(nextCron := cron.next(st.rule.cron, now));
            } else if now >= st.nextCron.value {
              st := st.(lastFired := Some(now));
              st := st.(nextCron := cron.next(st.rule.cron, now));
              fire := true;
            }
          } else if ConditionTrue(st.rule, snap) {
            if st.holdStart.None? { st := st.(holdStart := Some(now)); }
            var held := now - st.holdStart.value >= st.rule.hold;
            var canRepeat := st.rule.repeatEvery > 0 && st.lastFired.Some?
                && now - st.lastFired.value >= st.rule.repeatEvery;
            if held && (st.armed || canRepeat) {
              st := st.(armed := false, lastFired := Some(now));
              fire := true;
            }
          } else {
            st := st.(holdStart := None);
            if !st.armed && RearmTrue(st.rule, snap) { st := st.(armed := true); }
          }
        }
        assert (st, fire) == TickRule(cron, old(states)[i], snap, now);
        if fire { fires := fires + [Firing(st.rule, now)]; }
        states := states[i := st];
        assert old(states)[..i + 1][..i] == old(states)[..i];
        i := i + 1;
      }
      assert old(states)[..i] == old(states);
    }

    /** SetRules; a schedule that does not parse leaves the engine alone. */
    method Reload(rules: seq<Rule>) returns (ok: bool)
      modifies this`states
      ensures ok <==> Build(cron, rules).Some?
      ensures states == Step(cron, old(states), Event.Reload(rules))
    {
      BuildStates(cron, rules);
      var built: States := [];
      var i := 0;
      while i < |rules|
        invariant 0 <= i <= |rules| && |built| == i
        invariant forall k :: 0 <= k < i ==> built[k] == NewState(rules[k]) && Parses(cron, rules[k])
      {
        if !Parses(cron, rules[i]) {
          assert rules[i] in rules;
          return false;
        }
        built := built + [NewState(rules[i])];
        i := i + 1;
      }
      var prior: map<string, RuleState> := map[];
      i := 0;
      while i < |states|
        invariant 0 <= i <= |states| && states == old(states)
        invariant forall n :: n in prior <==> Lookup(states[..i], n).Some?
        invariant forall n :: n in prior ==> Lookup(states[..i], n) == Some(prior[n])
      {
        assert states[..i + 1][..i] == states[..i];
        prior := prior[states[i].rule.name := states[i]];
        i := i + 1;
      }
      assert states[..i] == states;
      ghost var fresh' := built;
      i := 0;
      while i < |built|
        invariant 0 <= i <= |built| == |fresh'|
        invariant forall k :: 0 <= k < |built| ==>
                    built[k] == if k < i then Carry(Lookup(states, fresh'[k].rule.name), fresh'[k]) else fresh'[k]
      {
        var s := built[i];
        if s.rule.name in prior {
          var o := prior[s.rule.name];
          s := s.(armed := o.armed, lastFired := o.lastFired, holdStart := o.holdStart);
          if s.scheduled && o.scheduled { s := s.(nextCron := o.nextCron); }
        }
        built := built[i := s];
        i := i + 1;
      }
      states := built;
      assert fresh' == Build(cron, rules).value;
      return true;
    }
  }
}
