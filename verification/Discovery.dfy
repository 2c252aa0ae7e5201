/** The mDNS service's event loop: which advertisement is live, and which timer is
    armed, after every reconciliation of what is published with what should be. */
module Discovery {
  import opened Base
  import opened DiscoveryKeys

  /** What a reconciliation finds it should publish. */
  datatype Desired = Unresolved | Suppressed | Wanted(p: Publication)

  /** What one reconciliation meets: the desired publication, whether the registrar
      gives a registration, whether a timer can be made. */
  datatype Inputs = Inputs(desired: Desired, registers: bool, made: bool)

  /** A successful registration: what it advertises, how often it was shut down. */
  datatype Reg = Reg(pub: Publication, shutdowns: nat)

  /** The variables of the loop, and every registration so far. */
  datatype Loop = Loop(active: Option<nat>, activeKey: string, activeInterfaceKey: string,
                       retry: bool, attempt: nat, revalidate: bool, identityKey: string, regs: seq<Reg>)

  datatype Event =
    | Begin(key: string, inputs: Inputs)
    | Snapshot(key: string, inputs: Inputs)
    | Refresh(inputs: Inputs)
    | RetryFires(inputs: Inputs)
    | RevalidateFires(inputs: Inputs)
    | Done

  function ShutActive(v: Loop): Loop {
    if v.active.Some? && v.active.value < |v.regs| then
      var i := v.active.value;
      v.(regs := v.regs[i := v.regs[i].(shutdowns := v.regs[i].shutdowns + 1)], active := None, activeKey := "",
          activeInterfaceKey := "")
    else v
  }

  function ScheduleRetry(v: Loop, made: bool): Loop {
    if v.retry || !made then v else v.(retry := true, attempt := v.attempt + 1)
  }

  function ScheduleRevalidate(v: Loop, made: bool): Loop { if made then v.(revalidate := true) else v }

  /** Before registering: a responder on other interfaces goes first. */
  function Revoke(v: Loop, p: Publication): Loop {
    if v.active.Some? && InterfaceKey(p.interfaces) != v.activeInterfaceKey then ShutActive(v) else v
  }

  /** A new registration takes over; the previous one is shut down. */
  function Replace(v: Loop, p: Publication): Loop {
    ShutActive(v).(active := Some(|v.regs|), activeKey := Key(p), activeInterfaceKey := InterfaceKey(p.interfaces),
                   regs := ShutActive(v).regs + [Reg(p, 0)])
  }

  function Reconcile(v: Loop, inputs: Inputs): Loop {
    match inputs.desired
    case Unresolved => ScheduleRetry(ShutActive(v.(revalidate := false)), inputs.made)
    case Suppressed => ShutActive(v.(retry := false, attempt := 0, revalidate := false))
    case Wanted(p) =>
      if Key(p) == v.activeKey then ScheduleRevalidate(v.(retry := false, attempt := 0), inputs.made)
      else if !inputs.registers then ScheduleRetry(Revoke(v, p).(revalidate := false), inputs.made)
      else ScheduleRevalidate(Replace(Revoke(v, p).(retry := false, attempt := 0, revalidate := false), p), inputs.made)
  }

  predicate Enabled(v: Loop, ev: Event) { (ev.RetryFires? ==> v.retry) && (ev.RevalidateFires? ==> v.revalidate) }

  /** Does the event reconcile? */
  predicate Reconciles(v: Loop, ev: Event) { !ev.Done? && (ev.Snapshot? ==> ev.key != v.identityKey) }

  /** The variables as the event leaves them to the reconciliation. */
  function Prepared(v: Loop, ev: Event): Loop {
    match ev
    case Begin(key, _) => v.(identityKey := key)
    case Snapshot(key, _) => v.(identityKey := key)
    case Refresh(_) => v.(retry := false, attempt := 0, revalidate := false)
    case RetryFires(_) => v.(retry := false)
    case RevalidateFires(_) => v.(revalidate := false)
    case Done => v.(retry := false, revalidate := false)
  }

  function Step(v: Loop, ev: Event): Loop {
    if ev.Done? then ShutActive(Prepared(v, ev))
    else if Reconciles(v, ev) then Reconcile(Prepared(v, ev), ev.inputs)
    else v
  }

  // ---------------------------------------------------------------- invariant

  /** Every registration was shut down exactly once, or is the active one and was
      not; the stored keys are the active registration's; a pending retry was counted. */
  predicate Owned(v: Loop) {
    && (v.active.Some? ==> v.active.value < |v.regs|)
    && (v.retry ==> v.attempt > 0)
    && (forall i: nat :: i < |v.regs| ==> v.regs[i].shutdowns == if v.active == Some(i) then 0 else 1)
    && (forall i :: 0 <= i < |v.regs| ==> Named(v.regs[i].pub.interfaces))
    && (match v.active
        case None => v.activeKey == "" && v.activeInterfaceKey == ""
        case Some(i) =>
          && v.activeKey == Key(v.regs[i].pub)
          && v.activeInterfaceKey == InterfaceKey(v.regs[i].pub.interfaces))
  }

  predicate OnInterfaces(v: Loop, ifaces: seq<Iface>)
    requires Owned(v)
  {
    v.active.Some? ==> SameInterfaces(v.regs[v.active.value].pub.interfaces, ifaces)
  }

  /** The active advertisement is the desired one. */
  predicate Current(v: Loop, p: Publication)
    requires Owned(v)
  {
    v.active.Some? && Key(v.regs[v.active.value].pub) == Key(p)
  }

  /** What holds once a reconciliation is over. */
  predicate Reconciled(v: Loop, inputs: Inputs)
    requires Owned(v)
  {
    match inputs.desired
    case Unresolved => v.active.None? && !v.revalidate && (inputs.made ==> v.retry && v.attempt > 0)
    case Suppressed => v.active.None? && !v.revalidate && !v.retry && v.attempt == 0
    case Wanted(p) =>
      && OnInterfaces(v, p.interfaces)
      && (inputs.registers ==> Current(v, p))
      && (Current(v, p) ==> !v.retry && v.attempt == 0 && (inputs.made ==> v.revalidate))
      && (!Current(v, p) ==> !v.revalidate && (inputs.made ==> v.retry))
  }

  predicate Proper(inputs: Inputs) { inputs.desired.Wanted? ==> Named(inputs.desired.p.interfaces) }

  predicate ProperEvent(ev: Event) { !ev.Done? ==> Proper(ev.inputs) }

  lemma KeyNotEmpty(p: Publication)
    ensures Key(p) != ""
  {
    KeyShape(p);
  }

  lemma ShutOwned(v: Loop)
    requires Owned(v)
    ensures Owned(ShutActive(v)) && ShutActive(v).active.None?
    ensures |ShutActive(v).regs| == |v.regs|
  {}

  /** Whatever is live while the registrar is at work is on the desired interfaces. */
  lemma RevokeFirst(v: Loop, p: Publication)
    requires Owned(v) && Named(p.interfaces)
    ensures Owned(Revoke(v, p)) && OnInterfaces(Revoke(v, p), p.interfaces)
    ensures Revoke(v, p).active.None? || Revoke(v, p) == v
  {
    ShutOwned(v);
    if v.active.Some? { InterfaceKeyInjective(v.regs[v.active.value].pub.interfaces, p.interfaces); }
  }

  lemma ReplaceOwned(v: Loop, p: Publication)
    requires Owned(v) && Named(p.interfaces)
    ensures Owned(Replace(v, p)) && OnInterfaces(Replace(v, p), p.interfaces) && Current(Replace(v, p), p)
  {
    ShutOwned(v);
    var w := Replace(v, p);
    assert w.regs[|v.regs|] == Reg(p, 0);
  }

  lemma UnwantedKeeps(v: Loop, inputs: Inputs)
    requires Owned(v) && !inputs.desired.Wanted?
    ensures Owned(Reconcile(v, inputs)) && Reconciled(Reconcile(v, inputs), inputs)
  {
    ShutOwned(v.(revalidate := false));
    ShutOwned(v.(retry := false, attempt := 0, revalidate := false));
  }

  lemma SameKeyKeeps(v: Loop, inputs: Inputs)
    requires Owned(v) && Proper(inputs) && inputs.desired.Wanted? && Key(inputs.desired.p) == v.activeKey
    ensures Owned(Reconcile(v, inputs)) && Reconciled(Reconcile(v, inputs), inputs)
  {
    KeyNotEmpty(inputs.desired.p);
    KeyFixesInterfaces(v.regs[v.active.value].pub, inputs.desired.p);
  }

  lemma FailureKeeps(v: Loop, inputs: Inputs)
    requires Owned(v) && Proper(inputs) && inputs.desired.Wanted? && Key(inputs.desired.p) != v.activeKey
             && !inputs.registers
    ensures Owned(Reconcile(v, inputs)) && Reconciled(Reconcile(v, inputs), inputs)
  {
    RevokeFirst(v, inputs.desired.p);
  }

  lemma SuccessKeeps(v: Loop, inputs: Inputs)
    requires Owned(v) && Proper(inputs) && inputs.desired.Wanted? && Key(inputs.desired.p) != v.activeKey
             && inputs.registers
    ensures Owned(Reconcile(v, inputs)) && Reconciled(Reconcile(v, inputs), inputs)
  {
    var p := inputs.desired.p;
    RevokeFirst(v, p);
    ReplaceOwned(Revoke(v, p).(retry := false, attempt := 0, revalidate := false), p);
  }

  lemma ReconcileKeeps(v: Loop, inputs: Inputs)
    requires Owned(v) && Proper(inputs)
    ensures Owned(Reconcile(v, inputs)) && Reconciled(Reconcile(v, inputs), inputs)
  {
    if !inputs.desired.Wanted? { UnwantedKeeps(v, inputs); }
    else if Key(inputs.desired.p) == v.activeKey { SameKeyKeeps(v, inputs); }
    else if inputs.registers { SuccessKeeps(v, inputs); }
    else { FailureKeeps(v, inputs); }
  }

  // ------------------------------------------------------------- whole runs

  /** A run and the inputs of its last reconciliation. */
  datatype Run = Run(v: Loop, last: Option<Inputs>, over: bool)

  function Advance(r: Run, ev: Event): Run {
    Run(Step(r.v, ev), if Reconciles(r.v, ev) then Some(ev.inputs) else r.last, ev.Done?)
  }

  const START := Run(Loop(None, "", "", false, 0, false, "", []), None, false)

  predicate Inv(r: Run) {
    && Owned(r.v)
    && (r.over ==> r.v.active.None? && !r.v.retry && !r.v.revalidate)
    && (!r.over && r.last.Some? ==> Reconciled(r.v, r.last.value))
  }

  ghost predicate Follows(r: Run, evs: seq<Event>)
    decreases |evs|
  {
    evs == [] || (!r.over && Enabled(r.v, evs[0]) && ProperEvent(evs[0]) && Follows(Advance(r, evs[0]), evs[1..]))
  }

  function Play(r: Run, evs: seq<Event>): Run
    decreases |evs|
  {
    if evs == [] then r else Play(Advance(r, evs[0]), evs[1..])
  }

  lemma StepKeeps(r: Run, ev: Event)
    requires Inv(r) && !r.over && ProperEvent(ev)
    ensures Inv(Advance(r, ev))
  {
    PreparedOwned(r.v, ev);
    if ev.Done? {
      ShutOwned(Prepared(r.v, ev));
    } else if Reconciles(r.v, ev) {
      ReconcileKeeps(Prepared(r.v, ev), ev.inputs);
    }
  }

  lemma PreparedOwned(v: Loop, ev: Event)
    requires Owned(v)
    ensures Owned(Prepared(v, ev))
  {}

  lemma {:induction false} PlayKeeps(r: Run, evs: seq<Event>)
    requires Inv(r) && Follows(r, evs)
    ensures Inv(Play(r, evs))
    decreases |evs|
  {
    if evs != [] {
      StepKeeps(r, evs[0]);
      PlayKeeps(Advance(r, evs[0]), evs[1..]);
    }
  }

  /** At every point of every run: each registration was shut down exactly once or
      is the active one and was not; the active one is on exactly the interfaces
      last resolved, and there is none if none was wanted; while publication is
      wanted, or resolution failed, exactly one timer is armed (retry exactly when
      the desired advertisement is not live), otherwise none. */
  lemma AlwaysReconciled(evs: seq<Event>)
    requires Follows(START, evs)
    ensures var r := Play(START, evs); var v := r.v;
            && (forall i: nat :: i < |v.regs| ==> v.regs[i].shutdowns == if v.active == Some(i) then 0 else 1)
            && (r.over ==> v.active.None? && !v.retry && !v.revalidate)
            && (!r.over && r.last.Some? ==>
                  var d := r.last.value.desired;
                  && (!d.Wanted? ==> v.active.None?)
                  && (d.Wanted? && v.active.Some? ==>
                        v.active.value < |v.regs| && SameInterfaces(v.regs[v.active.value].pub.interfaces,
                            d.p.interfaces))
                  && !(v.retry && v.revalidate)
                  && (d.Suppressed? ==> !v.retry && !v.revalidate)
                  && (!d.Suppressed? && r.last.value.made ==> v.retry != v.revalidate)
                  && (v.revalidate ==>
                        && d.Wanted? && v.active.Some? && v.active.value < |v.regs|
                        && Key(v.regs[v.active.value].pub) == Key(d.p)))
  {
    PlayKeeps(START, evs);
  }

  /** The identity last reported. */
  function LastKey(evs: seq<Event>): string {
    if evs == [] then ""
    else
      var ev := evs[|evs| - 1];
      match ev
      case Begin(key, _) => key
      case Snapshot(key, _) => key
      case _ => LastKey(evs[..|evs| - 1])
  }

  lemma {:induction false} PlaySnoc(r: Run, evs: seq<Event>)
    requires evs != []
    ensures Play(r, evs) == Advance(Play(r, evs[..|evs| - 1]), evs[|evs| - 1])
    decreases |evs|
  {
    var n := |evs| - 1;
    if n == 0 {
      assert evs[..n] == [] && Play(Advance(r, evs[0]), evs[1..]) == Advance(r, evs[0]);
    } else {
      PlaySnoc(Advance(r, evs[0]), evs[1..]);
      assert evs[..n][1..] == evs[1..][..n - 1];
    }
  }

  lemma {:induction false} IdentityLatest(evs: seq<Event>)
    ensures Play(START, evs).v.identityKey == LastKey(evs)
    decreases |evs|
  {
    if evs != [] {
      PlaySnoc(START, evs);
      IdentityLatest(evs[..|evs| - 1]);
      IdentityStep(Play(START, evs[..|evs| - 1]).v, evs[|evs| - 1]);
    }
  }

  lemma IdentityStep(v: Loop, ev: Event)
    ensures Step(v, ev).identityKey ==
            match ev
            case Begin(key, _) => key
            case Snapshot(key, _) => key
            case _ => v.identityKey
  {
    if !ev.Done? { ReconcileIdentity(Prepared(v, ev), ev.inputs); }
  }

  lemma ReconcileIdentity(v: Loop, inputs: Inputs)
    ensures Reconcile(v, inputs).identityKey == v.identityKey
  {
    if inputs.desired.Wanted? { ReplaceIdentity(v, inputs.desired.p); }
  }

  lemma ReplaceIdentity(v: Loop, p: Publication)
    ensures Revoke(v, p).identityKey == v.identityKey
    ensures forall w :: Replace(w, p).identityKey == w.identityKey
  {}

  /** After any run, every refresh, every timer that fires and every snapshot with
      another identity than the last brings the advertisement in line with what is then
      desired; a snapshot with the same identity changes nothing. */
  lemma Responds(evs: seq<Event>, ev: Event)
    requires Follows(START, evs) && ProperEvent(ev) && !ev.Done? && !Play(START, evs).over
    ensures var v, v' := Play(START, evs).v, Step(Play(START, evs).v, ev);
            if ev.Snapshot? && ev.key == LastKey(evs) then v' == v
            else Owned(v') && Reconciled(v', ev.inputs)
  {
    PlayKeeps(START, evs);
    IdentityLatest(evs);
    PreparedOwned(Play(START, evs).v, ev);
    ReconcileKeeps(Prepared(Play(START, evs).v, ev), ev.inputs);
  }

  /** The desired advertisement is live. */
  predicate LiveKey(v: Loop, d: Desired) {
    d.Wanted? && v.active.Some? && v.active.value < |v.regs| && Key(v.regs[v.active.value].pub) == Key(d.p)
  }

  /** The failed attempts in a row after an event: none once what is desired is live or
      nothing is; otherwise one more for every retry timer made, counting afresh after
      a refresh.  A timer still running is not made again. */
  function Tried(v: Loop, v': Loop, ev: Event, tries: nat): nat {
    if !Reconciles(v, ev) then tries
    else if ev.inputs.desired.Suppressed? || LiveKey(v', ev.inputs.desired) then 0
    else
      (if ev.Refresh? then 0 else tries) +
      (if ev.inputs.made && !(v.retry && !ev.Refresh? && !ev.RetryFires?) then 1 else 0)
  }

  function Tries(evs: seq<Event>): nat {
    if evs == [] then 0
    else
      var n := |evs| - 1;
      var v := Play(START, evs[..n]).v;
      Tried(v, Step(v, evs[n]), evs[n], Tries(evs[..n]))
  }

  lemma ReconcileTries(v: Loop, inputs: Inputs)
    requires Owned(v) && Proper(inputs)
    ensures var v' := Reconcile(v, inputs);
            v'.attempt == if inputs.desired.Suppressed? || LiveKey(v', inputs.desired) then 0
                          else v.attempt + if inputs.made && !v.retry then 1 else 0
  {
    ReconcileKeeps(v, inputs);
    if inputs.desired.Wanted? && !inputs.registers { RevokeFirst(v, inputs.desired.p); }
  }

  lemma StepTries(v: Loop, ev: Event)
    requires Owned(v) && ProperEvent(ev)
    ensures Step(v, ev).attempt == Tried(v, Step(v, ev), ev, v.attempt)
  {
    PreparedOwned(v, ev);
    if !ev.Done? { ReconcileTries(Prepared(v, ev), ev.inputs); }
  }

  lemma {:induction false} FollowsPrefix(r: Run, evs: seq<Event>)
    requires evs != [] && Follows(r, evs)
    ensures Follows(r, evs[..|evs| - 1]) && ProperEvent(evs[|evs| - 1])
    decreases |evs|
  {
    var n := |evs| - 1;
    if n > 0 {
      FollowsPrefix(Advance(r, evs[0]), evs[1..]);
      assert evs[..n][1..] == evs[1..][..n - 1];
    }
  }

  /** The number the retry delay is computed from is that of the failed attempts in a row. */
  lemma {:induction false} AttemptsExactly(evs: seq<Event>)
    requires Follows(START, evs)
    ensures Play(START, evs).v.attempt == Tries(evs)
    decreases |evs|
  {
    if evs != [] {
      var n := |evs| - 1;
      FollowsPrefix(START, evs);
      AttemptsExactly(evs[..n]);
      PlayKeeps(START, evs[..n]);
      PlaySnoc(START, evs);
      StepTries(Play(START, evs[..n]).v, evs[n]);
    }
  }

  /** With NUL-free host names, a revalidation timer means that everything the
      program makes is on the air as desired, and the device's id and model as one
      string; with NUL-free ids, that exactly the desired facts are, whatever bytes
      the model holds. */
  lemma RevalidatingMeansPublished(evs: seq<Event>)
    requires Follows(START, evs)
    ensures var r := Play(START, evs); var v := r.v;
            !r.over && r.last.Some? && v.revalidate ==>
              && r.last.value.desired.Wanted? && v.active.Some? && v.active.value < |v.regs|
              && var p, q := r.last.value.desired.p, v.regs[v.active.value].pub;
                 Ordinary(p) && Ordinary(q) ==>
                   && SameMade(p, q) && Joint(p.meta) == Joint(q.meta)
                   && (NulFree(p.meta.id) && NulFree(q.meta.id) ==> SameFacts(p, q))
  {
    PlayKeeps(START, evs);
    var r := Play(START, evs);
    if !r.over && r.last.Some? && r.v.revalidate {
      var p, q := r.last.value.desired.p, r.v.regs[r.v.active.value].pub;
      if Ordinary(p) && Ordinary(q) {
        KeyFixesJoint(p, q);
        if NulFree(p.meta.id) && NulFree(q.meta.id) { KeyFixesAll(p, q); }
      }
    }
  }
}
