/** The rotation and recovery code itself, working on a directory one file
    operation at a time.  Every operation may succeed, fail without effect, take
    effect but fail to reach the disk, or never return because the process died;
    which it is to be is a given fate, and the contracts hold for every fate.  Each method is proved to perform
    a prefix of the operation list that module CertTransaction reasons about. */
module CertDirectory {
  import opened Base
  import opened CertTransaction

  datatype Outcome = Done | Failed | Unsynced | Crashed

  /** How a call ended: with its own verdict, or because an operation gave out. */
  datatype Ending = Finished(err: Option<Error>) | Gave(up: Outcome)

  /** What is to become of each file operation ever tried, by its number. */
  type Fate = nat -> Outcome

  ghost predicate Smooth(fate: Fate, a: nat, b: nat) { forall i :: a <= i < b ==> fate(i) == Done }

  ghost predicate SmoothFrom(fate: Fate, a: nat) { forall i :: a <= i ==> fate(i) == Done }

  /** Operations `a` up to `b` were tried for a call that reports `o`: they all
      succeeded, or the last alone did not and `o` is what became of it. */
  ghost predicate Honest(fate: Fate, o: Outcome, a: nat, b: nat) {
    && a <= b
    && (o.Done? ==> Smooth(fate, a, b))
    && (!o.Done? ==> a < b && Smooth(fate, a, b - 1) && fate(b - 1) == o)
  }

  /** A rename whose source is missing cannot take effect. */
  function Result(given: Outcome, fs: Files, op: Op): (o: Outcome) {
    if op.Rename? && op.source !in fs && (given.Done? || given.Unsynced?) then Failed else given
  }

  /** Every rename finds its source. */
  predicate Feasible(fs: Files, ops: seq<Op>)
    decreases |ops|
  {
    ops == [] || ((ops[0].Rename? ==> ops[0].source in fs) && Feasible(Apply(fs, ops[0]), ops[1..]))
  }

  class Directory {
    var files: Files
    /** How many operations have been tried. */
    var tried: nat
    const load: Loader
    const fate: Fate

    constructor (initial: Files, load: Loader, fate: Fate)
      ensures files == initial && tried == 0 && this.load == load && this.fate == fate
    {
      files := initial;
      tried := 0;
      this.load := load;
      this.fate := fate;
    }

    method Do(op: Op) returns (o: Outcome)
      modifies this
      ensures files == if o.Done? || o.Unsynced? then Apply(old(files), op) else old(files)
      ensures tried == old(tried) + 1 && o == Result(fate(old(tried)), old(files), op)
    {
      o := fate(tried);
      tried := tried + 1;
      if o.Done? || o.Unsynced? {
        if op.Rename? && op.source !in files {
          o := Failed;
        } else {
          files := Apply(files, op);
        }
      }
    }

    /** Performs operations in order until one does not succeed. */
    method DoAll(ops: seq<Op>) returns (o: Outcome, k: nat)
      modifies this
      ensures k <= |ops| && files == Exec(old(files), ops[..k])
      ensures tried == old(tried) + if o.Done? || o.Unsynced? then k else k + 1
      ensures o.Done? ==> k == |ops| && Smooth(fate, old(tried), tried)
      ensures o.Failed? || o.Crashed? ==> k < |ops|
      ensures !o.Done? ==>
                && old(tried) < tried && Smooth(fate, old(tried), tried - 1)
                && var i := tried - 1 - old(tried);
                   i < |ops| && o == Result(fate(tried - 1), Exec(old(files), ops[..i]), ops[i])
      ensures Feasible(old(files), ops) ==> Honest(fate, o, old(tried), tried)
    {
      k := 0;
      while k < |ops|
        invariant k <= |ops| && files == Exec(old(files), ops[..k])
        invariant tried == old(tried) + k && Smooth(fate, old(tried), tried)
      {
        if Feasible(old(files), ops) { FeasibleAt(old(files), ops, k); }
        o := Do(ops[k]);
        ExecSnoc(old(files), ops, k);
        if o != Done {
          k := if o.Unsynced? then k + 1 else k;
          return;
        }
        k := k + 1;
      }
      o := Done;
    }

    method ReplaceRecovered(source: Path, target: Path) returns (o: Outcome, ghost k: nat)
      modifies this
      ensures var ops := ReplaceOps(source, target);
              k <= |ops| && files == Exec(old(files), ops[..k]) && (o.Done? ==> k == |ops|)
      ensures source in old(files) ==> Honest(fate, o, old(tried), tried)
    {
      if source == target { return Done, 0; }
      if source in files { FeasibleReplace(files, source, target); }
      o, k := DoAll([Remove(target), Rename(source, target)]);
    }

    method FinishTransaction(tx: Tx) returns (o: Outcome, ghost k: nat)
      modifies this
      ensures k <= |FinishOps(tx)| && files == Exec(old(files), FinishOps(tx)[..k])
              && (o.Done? ==> k == |FinishOps(tx)|)
      ensures Honest(fate, o, old(tried), tried)
    {
      FeasibleRemovals(files, FinishOps(tx));
      o, k := DoAll(FinishOps(tx));
    }

    method ChooseCandidate(tx: Tx) returns (c: Option<Candidate>)
      ensures c == Choose(load, files, Candidates(tx))
    {
      var cs := Candidates(tx);
      var i := 0;
      while i < |cs|
        invariant 0 <= i <= |cs| && Choose(load, files, cs) == Choose(load, files, cs[i..])
      {
        assert cs[i..][0] == cs[i] && cs[i..][1..] == cs[i + 1..];
        if CandidateUsable(load, files, cs[i]) { return Some(cs[i]); }
        i := i + 1;
      }
      c := None;
    }

    method Install(c: Candidate) returns (o: Outcome, ghost k: nat)
      requires c.cert.Some? && c.key.Some?
      modifies this
      ensures k <= |InstallOps(c)| && files == Exec(old(files), InstallOps(c)[..k])
              && (o.Done? ==> k == |InstallOps(c)|)
      ensures Installable(old(files), c) ==> Honest(fate, o, old(tried), tried)
    {
      ghost var certOps, keyOps := InstallCertOps(c), InstallKeyOps(c);
      o, k := Done, 0;
      if c.installCert { o, k := ReplaceRecovered(c.cert.value, CertFile); }
      ExecPrefix(old(files), certOps, keyOps, k);
      if o != Done { return; }
      ghost var j := 0;
      assert certOps[..k] == certOps;
      if Installable(old(files), c) && c.installKey { KeyStillThere(old(files), c); }
      if c.installKey { o, j := ReplaceRecovered(c.key.value, KeyFile); }
      k := |certOps| + j;
      ExecPrefix(old(files), certOps, keyOps, k);
    }

    /** The second half of recovery: install the chosen pair, check it, clean up. */
    method Restore(tx: Tx, c: Candidate) returns (r: Ending, ghost k: nat)
      requires Installable(files, c)
      modifies this
      ensures var install := InstallOps(c); var fits := Usable(load, Exec(old(files), install), CertFile, KeyFile);
              var ops := install + if fits then FinishOps(tx) else [];
              && k <= |ops| && files == Exec(old(files), ops[..k])
              && (r.Finished? ==> k == |ops| && r.err == if fits then None else Some(UnusableResult))
      ensures Honest(fate, if r.Gave? then r.up else Done, old(tried), tried)
      ensures r.Gave? ==> !r.up.Done?
    {
      ghost var install := InstallOps(c);
      ghost var rest := if Usable(load, Exec(files, install), CertFile, KeyFile) then FinishOps(tx) else [];
      var o: Outcome;
      o, k := Install(c);
      ExecPrefix(old(files), install, rest, k);
      if o != Done { return Gave(o), k; }
      assert install[..k] == install;
      if !Usable(load, files, CertFile, KeyFile) { return Finished(Some(UnusableResult)), k; }
      ghost var j: nat;
      o, j := FinishTransaction(tx);
      k := |install| + j;
      ExecPrefix(old(files), install, rest, k);
      r := if o.Done? then Finished(None) else Gave(o);
    }

    /** recoverCertificateTransaction.  It gives up only on an operation that did
        not succeed, so undisturbed it carries out the whole plan; a directory that
        holds `reg` then has exactly that pair installed and no journal. */
    method Recover() returns (r: Ending, ghost k: nat)
      modifies this
      ensures var plan := RecoveryPlan(load, old(files));
              && k <= |plan.ops| && files == Exec(old(files), plan.ops[..k])
              && (r.Finished? ==> k == |plan.ops| && r.err == plan.err)
      ensures Honest(fate, if r.Gave? then r.up else Done, old(tried), tried)
      ensures r.Gave? ==> !r.up.Done?
      ensures forall reg :: SmoothFrom(fate, old(tried)) && Holds(load, old(files), reg) ==>
                r == Finished(None) && JournalFile !in files && Installed(files) == reg
    {
      ghost var plan := RecoveryPlan(load, files);
      RecoverySettles(load, files);
      if JournalFile !in files { return Finished(None), 0; }
      if !files[JournalFile].Record? { return Finished(Some(BadJournal)), 0; }
      var tx := files[JournalFile].tx;
      if !ValidTx(tx) { return Finished(Some(BadPaths)), 0; }
      var chosen := ChooseCandidate(tx);
      if chosen.None? || chosen.value.cert.None? || chosen.value.key.None? { return Finished(Some(NoCandidate)), 0; }
      PlanParts(load, files, tx, chosen.value);
      ChosenInstallable(load, files, tx);
      r, k := Restore(tx, chosen.value);
    }

    /** Best-effort removal of what a failed preparation staged: errors are noted
        and the remaining files are still tried, until the process dies. */
    method CleanUp(paths: seq<Path>) returns (ghost cleaned: set<Path>)
      modifies this
      ensures cleaned <= Elements(paths) && files == old(files) - cleaned && old(tried) <= tried
      ensures forall i :: 0 <= i < |paths| && Reached(fate, old(tried), i) ==>
                fate(old(tried) + i).Failed? || paths[i] in cleaned
    {
      cleaned := {};
      for i := 0 to |paths|
        invariant cleaned <= Elements(paths) && files == old(files) - cleaned
        invariant tried == old(tried) + i
        invariant forall j :: 0 <= j < i ==> fate(old(tried) + j).Failed? || paths[j] in cleaned
      {
        var o := Do(Remove(paths[i]));
        if o.Crashed? { return; }
        if o.Done? || o.Unsynced? { cleaned := cleaned + {paths[i]}; }
      }
    }

    /** Stages both files and the journal record and installs the journal; `m` is
        the number of the first clean-up operation.  A failure whose clean-up is
        undisturbed leaves the directory as it was, except that a name whose
        reservation broke off stays behind as an empty file. */
    method Prepare(n: Names, made: Pair) returns (o: Outcome, ghost k: nat, ghost cleaned: set<Path>, ghost m: nat)
      modifies this
      ensures var ops := PrepareOps(old(files), n, made) + [Rename(JournalTemp(n.journalTemp), JournalFile)];
              && k <= |ops| && cleaned <= Staged(old(files), n)
              && (k == |ops| ==> cleaned == {})
              && files == Exec(old(files), ops[..k]) - cleaned
              && (o.Done? ==> k == |ops| && m == tried)
      ensures Honest(fate, o, old(tried), m) && m <= tried
      ensures !o.Done? && !o.Crashed? && SmoothFrom(fate, m) && FreshNames(old(files), n)
              && k <= |PrepareOps(old(files), n, made)| ==>
                var left := Abandoned(RotationTx(old(files), n), k);
                files == if left.Some? then old(files)[left.value := Empty] else old(files)
    {
      var prepare, install := PrepareOps(files, n, made), Rename(JournalTemp(n.journalTemp), JournalFile);
      FeasiblePrepare(files, n, made);
      var tx := RotationTx(files, n);
      var done: nat;
      o, done := DoAll(prepare + [install]);
      k := done;
      cleaned := {};
      m := tried;
      assert files - {} == files;
      if o == Failed || (o == Unsynced && done <= |prepare|) {
        var known := Known(tx, JournalTemp(n.journalTemp), done);
        cleaned := CleanUp(known);
        CleanedUp(fate, m, old(files), n, made, done, cleaned);
      }
    }

    /** The journalled part: swap, verify, clean up; a failed rename or a pair
        that does not load (`loads` is whether the new pair does) runs recovery
        at once, and recovery is what then decides the directory.  `m` is the
        number of recovery's first operation. */
    method Commit(tx: Tx)
        returns (r: Ending, loads: bool, recovery: Option<Ending>, ghost k: nat, ghost j: nat, ghost m: nat)
      modifies this
      ensures k <= |CommitOps(tx)|
      ensures var cut := Exec(old(files), CommitOps(tx)[..k]); var plan := RecoveryPlan(load, cut);
              && j <= |plan.ops| && files == Exec(cut, plan.ops[..j])
              && (recovery.Some? && recovery.value.Finished? ==> j == |plan.ops| && recovery.value.err == plan.err)
      ensures recovery.None? ==> j == 0 && m == tried
      ensures r.Finished? ==> r.err.None? && loads && k == |CommitOps(tx)| && recovery.None?
      ensures r.Gave? ==> !r.up.Done?
      ensures !loads && r != Gave(Crashed) ==> recovery.Some? && k <= |SwapOps(tx)|
      ensures loads ==> k >= |SwapOps(tx)| && recovery.None?
      ensures old(tried) <= m <= tried
      ensures recovery.Some? ==>
                Honest(fate, if recovery.value.Gave? then recovery.value.up else Done, m, tried)
      ensures Feasible(old(files), SwapOps(tx)) ==>
                var fits := Usable(load, Exec(old(files), SwapOps(tx)), CertFile, KeyFile);
                if r.Gave? && !loads && !fits && Smooth(fate, old(tried), m)
                then r.up.Failed? && k == |SwapOps(tx)|
                else Honest(fate, if r.Gave? then r.up else Done, old(tried), m) && (r.Finished? ==> fits)
    {
      var o: Outcome;
      j := 0;
      loads, recovery := false, None;
      o, k := DoAll(SwapOps(tx));
      ExecPrefix(old(files), SwapOps(tx), FinishOps(tx), k);
      m := tried;
      if o == Done {
        assert SwapOps(tx)[..k] == SwapOps(tx);
        loads := Usable(load, files, CertFile, KeyFile);
        if loads {
          ghost var i: nat;
          o, i := FinishTransaction(tx);
          k := |SwapOps(tx)| + i;
          ExecPrefix(old(files), SwapOps(tx), FinishOps(tx), k);
          m := tried;
          r := if o.Done? then Finished(None) else Gave(o);
          return;
        }
        o := Failed;
      }
      if o != Crashed {
        var verdict: Ending;
        verdict, j := Recover();
        recovery := Some(verdict);
      }
      r := Gave(o);
    }

    /** rotateCertificateWithHooks, on a directory recovery has settled. */
    method Rotate(n: Names, made: Pair, ghost reg: Option<Pair>) returns (r: Ending, ghost reg': Option<Pair>)
      requires FreshNames(files, n) && MayRotate(load, files)
      modifies this
      ensures r.Finished? ==> r.err.None?
      ensures Sound(load, old(files), made, reg) ==>
                && Holds(load, files, reg') && (reg' == reg || reg' == Some(made))
                && (r.Finished? ==> JournalFile !in files && Installed(files) == Some(made) == reg')
                && (r.Gave? ==> Blamed(fate, r.up, old(tried), tried))
    {
      ghost var fs := files;
      ghost var sound := Sound(load, files, made, reg);
      reg' := reg;
      ghost var k: nat, m: nat;
      var tx := RotationTx(files, n);
      var o: Outcome;
      ghost var cleaned: set<Path>;
      o, k, cleaned, m := Prepare(n, made);
      if sound { reg' := PreparedRegister(load, fs, reg, n, made, k, cleaned); }
      if o != Done {
        BlameLast(fate, o, old(tried), m);
        r := Gave(o);
        return;
      }
      PreparedFiles(fs, n, made, k);
      FeasibleSwap(fs, n, made);
      ghost var i: nat, j: nat;
      ghost var half := tried;
      var loads: bool, recovery: Option<Ending>;
      r, loads, recovery, i, j, m := Commit(tx);
      if sound {
        SwapFits(load, fs, n, made);
        reg' := CommittedRegister(load, fs, reg, n, made, i, j, r.Finished?);
        if r.Gave? { BlameLast(fate, r.up, half, m); }
      }
    }

    /** rotateCertificateLocked: recovery first, then, unless the pair is one-sided
        or does not load, a rotation.  If the directory held `reg` and the new pair
        mixes with it in neither direction, then whatever gives out the directory
        goes on holding the old pair or holds the new one, success means the new
        one is installed and the journal gone, and undisturbed it succeeds.  It is
        refused exactly for what recovery leaves behind. */
    method RotateCertificate(n: Names, made: Pair, ghost reg: Option<Pair>)
        returns (r: Ending, ghost reg': Option<Pair>)
      requires FreshNames(files, n)
      modifies this
      ensures Sound(load, old(files), made, reg) ==>
                && Holds(load, files, reg') && (reg' == reg || reg' == Some(made))
                && (r.Finished? ==> r.err.None?)
                && (r == Finished(None) ==> JournalFile !in files && Installed(files) == Some(made) == reg')
                && (r.Gave? ==> Blamed(fate, r.up, old(tried), tried))
      ensures Sound(load, old(files), made, reg) && SmoothFrom(fate, old(tried)) ==> r == Finished(None)
      ensures r.Finished? && r.err.Some? ==> r.err == Refusal(load, old(files))
      ensures SmoothFrom(fate, old(tried)) && Refusal(load, old(files)).Some? ==>
                r == Finished(Refusal(load, old(files)))
    {
      ghost var sound := Sound(load, files, made, reg);
      ghost var k: nat;
      ghost var fs := files;
      reg' := reg;
      r, k := Recover();
      if sound { RecoveryHolds(load, fs, reg, k); }
      if r != Finished(None) {
        if r.Gave? { BlameLast(fate, r.up, old(tried), tried); }
        return;
      }
      FinishedRecovery(load, fs, k, n);
      if sound { CompletedRecovery(load, fs, reg); }
      if (CertFile in files) != (KeyFile in files) { r := Finished(Some(OneSided)); return; }
      if CertFile in files && !Usable(load, files, CertFile, KeyFile) { r := Finished(Some(InvalidPair)); return; }
      r, reg' := Rotate(n, made, reg);
    }
  }

  /** Some operation tried in between ended in `o`, which is not success. */
  ghost predicate Blamed(fate: Fate, o: Outcome, a: nat, b: nat) {
    !o.Done? && exists i :: a <= i < b && fate(i) == o
  }

  lemma BlameLast(fate: Fate, o: Outcome, a: nat, b: nat)
    requires Honest(fate, o, a, b) && !o.Done?
    ensures fate(b - 1) == o && a <= b - 1
  {}

  /** Nothing up to operation `a + i` killed the process. */
  ghost predicate Reached(fate: Fate, a: nat, i: nat) { forall j :: a <= j <= a + i ==> !fate(j).Crashed? }

  /** The names a failed preparation still knows once `k` of its operations have
      taken effect.  A name whose reservation did not complete is not among them. */
  function Known(tx: Tx, jt: Path, k: nat): (r: seq<Path>) {
    var c, d := |Reserve(tx.certBackup)|, |Reserve(tx.certBackup)| + |Reserve(tx.keyBackup)|;
    (if k >= d + 5 then [jt] else []) + (if k >= 1 then [tx.certTemp] else []) +
    (if k >= 3 then [tx.keyTemp] else []) +
    (if k >= 6 then Listed(tx.certBackup) else []) + (if k >= c + 6 then Listed(tx.keyBackup) else [])
  }

  /** The name being reserved when only `k` operations have taken effect. */
  function Abandoned(tx: Tx, k: nat): Option<Path> {
    if k == 5 && tx.certBackup.Some? then tx.certBackup
    else if k == |Reserve(tx.certBackup)| + 5 && tx.keyBackup.Some? then tx.keyBackup
    else None
  }

  /** Why a rotation is refused, if it is. */
  function Refusal(load: Loader, fs: Files): Option<Error> {
    var plan := RecoveryPlan(load, fs);
    var done := Exec(fs, plan.ops);
    if plan.err.Some? then plan.err
    else if (CertFile in done) != (KeyFile in done) then Some(OneSided)
    else if CertFile in done && !Usable(load, done, CertFile, KeyFile) then Some(InvalidPair)
    else None
  }

  // ------------------------------------------ every rename finds its source

  predicate Installable(fs: Files, c: Candidate) {
    && c.cert.Some? && c.key.Some?
    && (c.installCert ==> c.cert.value in fs)
    && (c.installKey ==> c.key.value in fs && c.key.value != CertFile && c.key.value != c.cert.value)
  }

  lemma {:induction false} FeasibleAt(fs: Files, ops: seq<Op>, k: nat)
    requires Feasible(fs, ops) && k <= |ops|
    ensures k < |ops| && ops[k].Rename? ==> ops[k].source in Exec(fs, ops[..k])
    decreases |ops|
  {
    if k > 0 {
      FeasibleAt(Apply(fs, ops[0]), ops[1..], k - 1);
      assert ops[..k][1..] == ops[1..][..k - 1];
    }
  }

  lemma {:induction false} FeasibleAppend(fs: Files, a: seq<Op>, b: seq<Op>)
    requires Feasible(fs, a) && Feasible(Exec(fs, a), b)
    ensures Feasible(fs, a + b)
    decreases |a|
  {
    if a == [] {
      assert a + b == b;
    } else {
      assert (a + b)[0] == a[0] && (a + b)[1..] == a[1..] + b;
      FeasibleAppend(Apply(fs, a[0]), a[1..], b);
    }
  }

  lemma {:induction false} FeasibleRemovals(fs: Files, ops: seq<Op>)
    requires forall i :: 0 <= i < |ops| ==> !ops[i].Rename?
    ensures Feasible(fs, ops)
    decreases |ops|
  {
    if ops != [] { FeasibleRemovals(Apply(fs, ops[0]), ops[1..]); }
  }

  lemma FeasibleReplace(fs: Files, source: Path, target: Path)
    requires source in fs && source != target
    ensures Feasible(fs, [Remove(target), Rename(source, target)])
  {
    var ops := [Remove(target), Rename(source, target)];
    var mid := Apply(fs, ops[0]);
    assert ops[1..] == [ops[1]] && ops[1..][1..] == [];
    assert Feasible(Apply(mid, ops[1]), ops[1..][1..]);
    assert Feasible(mid, ops[1..]);
  }

  lemma KeyStillThere(fs: Files, c: Candidate)
    requires Installable(fs, c) && c.installKey
    ensures c.key.value in Exec(fs, InstallCertOps(c))
  {
    if c.installCert && c.cert.value != CertFile {
      var a, b := Remove(CertFile), Rename(c.cert.value, CertFile);
      assert [a, b][1..] == [b] && [b][1..] == [];
      assert Exec(fs, [a, b]) == Exec(Apply(fs, a), [b]) == Exec(Apply(Apply(fs, a), b), []);
    }
  }

  lemma {:induction false} ChoiceUsable(load: Loader, fs: Files, cs: seq<Candidate>)
    ensures var c := Choose(load, fs, cs); c.Some? ==> c.value in cs && CandidateUsable(load, fs, c.value)
  {
    if cs != [] { ChoiceUsable(load, fs, cs[1..]); }
  }

  lemma ChosenInstallable(load: Loader, fs: Files, tx: Tx)
    requires ValidTx(tx)
    ensures var c := Choose(load, fs, Candidates(tx)); c.Some? ==> Installable(fs, c.value)
  {
    ChoiceUsable(load, fs, Candidates(tx));
  }

  lemma PlanParts(load: Loader, fs: Files, tx: Tx, c: Candidate)
    requires JournalFile in fs && fs[JournalFile] == Record(tx) && ValidTx(tx)
    requires Choose(load, fs, Candidates(tx)) == Some(c) && c.cert.Some? && c.key.Some?
    ensures var plan := RecoveryPlan(load, fs);
            && plan.ops == InstallOps(c) + (if plan.err.None? then FinishOps(tx) else [])
            && plan.err == if Usable(load, Exec(fs, InstallOps(c)), CertFile, KeyFile) then None
                           else Some(UnusableResult)
  {}

  lemma RecoverySettles(load: Loader, fs: Files)
    ensures var plan := RecoveryPlan(load, fs);
            plan.ops[..|plan.ops|] == plan.ops && forall reg :: Holds(load, fs, reg) ==>
                plan.err.None? && JournalFile !in Exec(fs, plan.ops) && Installed(Exec(fs, plan.ops)) == reg
  {
    forall reg | Holds(load, fs, reg)
      ensures var plan := RecoveryPlan(load, fs);
              plan.err.None? && JournalFile !in Exec(fs, plan.ops) && Installed(Exec(fs, plan.ops)) == reg
    {
      CompletedRecovery(load, fs, reg);
    }
  }

  lemma AllCleaned(fate: Fate, m: nat, paths: seq<Path>, cleaned: set<Path>)
    requires forall i :: 0 <= i < |paths| && Reached(fate, m, i) ==> fate(m + i).Failed? || paths[i] in cleaned
    ensures SmoothFrom(fate, m) ==> Elements(paths) <= cleaned
  {
    if SmoothFrom(fate, m) {
      forall i | 0 <= i < |paths| ensures paths[i] in cleaned {
        assert Reached(fate, m, i);
        assert fate(m + i).Done?;
      }
    }
  }

  lemma FeasiblePrepare(fs: Files, n: Names, made: Pair)
    ensures Feasible(fs, PrepareOps(fs, n, made) + [Rename(JournalTemp(n.journalTemp), JournalFile)])
  {
    var prep, install := PrepareOps(fs, n, made), Rename(JournalTemp(n.journalTemp), JournalFile);
    FeasibleRemovals(fs, prep);
    var last := |prep| - 1;
    ExecSnoc(fs, prep, last);
    assert prep[..last + 1] == prep && prep[last] == Create(JournalTemp(n.journalTemp), Record(RotationTx(fs, n)));
    assert Feasible(Apply(Exec(fs, prep), install), []);
    assert [install][1..] == [];
    assert Feasible(Exec(fs, prep), [install]);
    FeasibleAppend(fs, prep, [install]);
  }

  lemma PrepareOpAt(fs: Files, n: Names, made: Pair, k: nat)
    requires k < |PrepareOps(fs, n, made)|
    ensures var tx, jt, op := RotationTx(fs, n), JournalTemp(n.journalTemp), PrepareOps(fs, n, made)[k];
            var c, d := |Reserve(tx.certBackup)|, |Reserve(tx.certBackup)| + |Reserve(tx.keyBackup)|;
            && |PrepareOps(fs, n, made)| == d + 6
            && (k < 2 ==> op.Create? && op.path == tx.certTemp)
            && (2 <= k < 4 ==> op.Create? && op.path == tx.keyTemp)
            && (4 <= k < 4 + c ==> op == if k == 4 then Create(tx.certBackup.value, Empty)
                                         else Remove(tx.certBackup.value))
            && (4 + c <= k < 4 + d ==> op == if k == 4 + c then Create(tx.keyBackup.value, Empty)
                                             else Remove(tx.keyBackup.value))
            && (4 + d <= k ==> op.Create? && op.path == jt)
  {
  }

  function StagedAfter(tx: Tx, jt: Path, k: nat): set<Path> {
    (if k >= 1 then {tx.certTemp} else {}) + (if k >= 3 then {tx.keyTemp} else {}) +
    Elements(Listed(Abandoned(tx, k))) +
    (if k >= |Reserve(tx.certBackup)| + |Reserve(tx.keyBackup)| + 5 then {jt} else {})
  }

  lemma {:induction false} PreparedNames(fs: Files, n: Names, made: Pair, k: nat)
    requires FreshNames(fs, n) && k <= |PrepareOps(fs, n, made)|
    ensures var tx, jt, ops := RotationTx(fs, n), JournalTemp(n.journalTemp), PrepareOps(fs, n, made);
            Exec(fs, ops[..k]).Keys == fs.Keys + StagedAfter(tx, jt, k)
  {
    if k > 0 {
      PreparedNames(fs, n, made, k - 1);
      ExecSnoc(fs, PrepareOps(fs, n, made), k - 1);
      PrepareOpAt(fs, n, made, k - 1);
    }
  }

  lemma AbandonedEmpty(fs: Files, n: Names, made: Pair, k: nat)
    requires k <= |PrepareOps(fs, n, made)| && Abandoned(RotationTx(fs, n), k).Some?
    ensures Get(Exec(fs, PrepareOps(fs, n, made)[..k]), Abandoned(RotationTx(fs, n), k).value) == Some(Empty)
  {
    ExecSnoc(fs, PrepareOps(fs, n, made), k - 1);
    PrepareOpAt(fs, n, made, k - 1);
  }

  lemma CleanedFiles(fs: Files, n: Names, made: Pair, k: nat)
    requires FreshNames(fs, n) && k <= |PrepareOps(fs, n, made)|
    ensures var tx, jt := RotationTx(fs, n), JournalTemp(n.journalTemp);
            var left := Abandoned(tx, k);
            Exec(fs, PrepareOps(fs, n, made)[..k]) - Elements(Known(tx, jt, k)) ==
            if left.Some? then fs[left.value := Empty] else fs
  {
    var tx, jt := RotationTx(fs, n), JournalTemp(n.journalTemp);
    PreparedNames(fs, n, made, k);
    PrepareIsPrivate(fs, n, made, k);
    var cut := Exec(fs, PrepareOps(fs, n, made)[..k]);
    var left := Abandoned(tx, k);
    if left.Some? { AbandonedEmpty(fs, n, made, k); }
    KnownStaged(fs, n, k);
    var want := if left.Some? then fs[left.value := Empty] else fs;
    forall q ensures Get(cut - Elements(Known(tx, jt, k)), q) == Get(want, q) {
      if q !in Staged(fs, n) { assert Get(cut, q) == Get(fs, q); }
    }
    SameFiles(cut - Elements(Known(tx, jt, k)), want);
  }

  lemma KnownStaged(fs: Files, n: Names, k: nat)
    ensures Elements(Known(RotationTx(fs, n), JournalTemp(n.journalTemp), k)) <= Staged(fs, n)
  {}

  lemma CleanedUp(fate: Fate, m: nat, fs: Files, n: Names, made: Pair, k: nat, cleaned: set<Path>)
    requires k <= |PrepareOps(fs, n, made)|
    requires var known := Known(RotationTx(fs, n), JournalTemp(n.journalTemp), k);
             && cleaned <= Elements(known)
             && forall i :: 0 <= i < |known| && Reached(fate, m, i) ==> fate(m + i).Failed? || known[i] in cleaned
    ensures cleaned <= Staged(fs, n)
    ensures SmoothFrom(fate, m) && FreshNames(fs, n) ==>
              var left := Abandoned(RotationTx(fs, n), k);
              var ops := PrepareOps(fs, n, made) + [Rename(JournalTemp(n.journalTemp), JournalFile)];
              Exec(fs, ops[..k]) - cleaned == if left.Some? then fs[left.value := Empty] else fs
  {
    var known := Known(RotationTx(fs, n), JournalTemp(n.journalTemp), k);
    KnownStaged(fs, n, k);
    AllCleaned(fate, m, known, cleaned);
    ExecPrefix(fs, PrepareOps(fs, n, made), [Rename(JournalTemp(n.journalTemp), JournalFile)], k);
    if SmoothFrom(fate, m) && FreshNames(fs, n) {
      CleanedFiles(fs, n, made, k);
      assert cleaned == Elements(known);
    }
  }

  predicate Sound(load: Loader, fs: Files, made: Pair, reg: Option<Pair>) {
    && Holds(load, fs, reg) && load(made.cert, made.key)
    && (reg.Some? ==> !load(reg.value.cert, made.key) && !load(made.cert, reg.value.key))
  }

  lemma PreparedRegister(load: Loader, fs: Files, reg: Option<Pair>, n: Names, made: Pair, k: nat, cleaned: set<Path>)
      returns (reg': Option<Pair>)
    requires Sound(load, fs, made, reg) && MayRotate(load, fs) && FreshNames(fs, n) && cleaned <= Staged(fs, n)
    requires k <= |PrepareOps(fs, n, made)| + 1 && (k == |PrepareOps(fs, n, made)| + 1 ==> cleaned == {})
    ensures var ops := PrepareOps(fs, n, made) + [Rename(JournalTemp(n.journalTemp), JournalFile)];
            Holds(load, Exec(fs, ops[..k]) - cleaned, reg') && (reg' == reg || reg' == Some(made))
  {
    var ops := PrepareOps(fs, n, made) + [Rename(JournalTemp(n.journalTemp), JournalFile)];
    ExecPrefix(fs, ops, CommitOps(RotationTx(fs, n)), k);
    var ev := Rotation(n, made, k, cleaned);
    StepKeeps(load, fs, reg, ev);
    reg' := AbstractStep(load, fs, reg, ev);
  }

  lemma PreparedFiles(fs: Files, n: Names, made: Pair, k: nat)
    requires FreshNames(fs, n) && k == |PrepareOps(fs, n, made)| + 1
    ensures var ops := PrepareOps(fs, n, made) + [Rename(JournalTemp(n.journalTemp), JournalFile)];
            Exec(fs, ops[..k]) - {} == Journalled(fs, n, made)
  {
    var ops := PrepareOps(fs, n, made) + [Rename(JournalTemp(n.journalTemp), JournalFile)];
    assert ops[..k] == ops;
    PrepareReachesJournal(fs, n, made);
  }

  lemma RecoveryHolds(load: Loader, fs: Files, reg: Option<Pair>, k: nat)
    requires Holds(load, fs, reg) && k <= |RecoveryPlan(load, fs).ops|
    ensures RecoveryPlan(load, fs).err.None?
    ensures Holds(load, Exec(fs, RecoveryPlan(load, fs).ops[..k]), reg)
  {
    CompletedRecovery(load, fs, reg);
    StepKeeps(load, fs, reg, Recovery(k));
  }

  /** Recovery never creates an auxiliary file. */
  lemma {:induction false} NamesStayFree(fs: Files, ops: seq<Op>, n: Names)
    requires FreshNames(fs, n)
    requires forall op :: op in ops ==> op.Remove? || (op.Rename? && op.target in {CertFile, KeyFile})
    ensures FreshNames(Exec(fs, ops), n)
    decreases |ops|
  {
    if ops != [] {
      assert ops[0] in ops;
      NamesStayFree(Apply(fs, ops[0]), ops[1..], n);
    }
  }

  lemma FinishedRecovery(load: Loader, fs: Files, k: nat, n: Names)
    requires FreshNames(fs, n) && RecoveryPlan(load, fs).err.None? && k == |RecoveryPlan(load, fs).ops|
    ensures RecoveryPlan(load, fs).ops[..k] == RecoveryPlan(load, fs).ops
    ensures var fs' := Exec(fs, RecoveryPlan(load, fs).ops); FreshNames(fs', n) && JournalFile !in fs'
  {
    var ops := RecoveryPlan(load, fs).ops;
    RecoveryOps(load, fs);
    NamesStayFree(fs, ops, n);
    if JournalFile in fs {
      ExecSnoc(fs, ops, |ops| - 1);
      assert ops[..|ops|] == ops;
    }
  }

  lemma RecoveryOps(load: Loader, fs: Files)
    ensures var plan := RecoveryPlan(load, fs);
            && (forall op :: op in plan.ops ==> op.Remove? || (op.Rename? && op.target in {CertFile, KeyFile}))
            && (plan.err.None? && JournalFile in fs ==>
                  plan.ops != [] && plan.ops[|plan.ops| - 1] == Remove(JournalFile))
  {}

  lemma FeasibleRenames(fs: Files, a: Op, b: Op)
    requires a.Rename? && b.Rename? && a.source in fs && b.source in fs && b.source !in {a.source, a.target}
    ensures Feasible(fs, [a, b])
    ensures Exec(fs, [a, b]).Keys == fs.Keys - {a.source, b.source} + {a.target, b.target}
  {
    ExecTwo(fs, a, b);
    var ops := [a, b];
    assert ops[1..] == [b] && ops[1..][1..] == [];
    assert Feasible(Apply(Apply(fs, a), b), ops[1..][1..]);
    assert Feasible(Apply(fs, a), ops[1..]);
  }

  /** The renames that make the new pair the configured one all find their source. */
  lemma FeasibleSwap(fs: Files, n: Names, made: Pair)
    requires CertFile in fs <==> KeyFile in fs
    ensures Feasible(Journalled(fs, n, made), SwapOps(RotationTx(fs, n)))
  {
    var start, tx := Journalled(fs, n, made), RotationTx(fs, n);
    var put := [Rename(tx.certTemp, CertFile), Rename(tx.keyTemp, KeyFile)];
    if CertFile in fs {
      FeasibleRenames(start, Rename(CertFile, tx.certBackup.value), Rename(KeyFile, tx.keyBackup.value));
      assert BackupOps(tx) == [Rename(CertFile, tx.certBackup.value), Rename(KeyFile, tx.keyBackup.value)];
    }
    FeasibleRenames(Exec(start, BackupOps(tx)), put[0], put[1]);
    FeasibleAppend(start, BackupOps(tx), put);
  }

  lemma CommittedRegister(load: Loader, fs: Files, reg: Option<Pair>, n: Names, made: Pair, i: nat, j: nat,
      finished: bool) returns (reg': Option<Pair>)
    requires Sound(load, fs, made, reg) && MayRotate(load, fs) && FreshNames(fs, n)
    requires i <= |CommitOps(RotationTx(fs, n))|
    requires var cut := Exec(Journalled(fs, n, made), CommitOps(RotationTx(fs, n))[..i]);
             j <= |RecoveryPlan(load, cut).ops|
    requires finished ==> i == |CommitOps(RotationTx(fs, n))| && j == 0
    ensures var cut := Exec(Journalled(fs, n, made), CommitOps(RotationTx(fs, n))[..i]);
            var end := Exec(cut, RecoveryPlan(load, cut).ops[..j]);
            && Holds(load, end, reg') && (reg' == reg || reg' == Some(made))
            && (finished ==> JournalFile !in end && Installed(end) == Some(made) == reg')
  {
    var tx := RotationTx(fs, n);
    var cut := Exec(Journalled(fs, n, made), CommitOps(tx)[..i]);
    CommitKeeps(load, fs, n, made, i);
    reg' := if CertFile in fs && i < |SwapOps(tx)| then reg else Some(made);
    RecoveryHolds(load, cut, reg', j);
    if finished { assert RecoveryPlan(load, cut).ops[..j] == []; }
  }

  lemma SwapFits(load: Loader, fs: Files, n: Names, made: Pair)
    requires MayRotate(load, fs) && FreshNames(fs, n) && Generated(load, fs, made)
    ensures Usable(load, Exec(Journalled(fs, n, made), SwapOps(RotationTx(fs, n))), CertFile, KeyFile)
  {
    var ops := SwapOps(RotationTx(fs, n));
    SwapHolds(load, fs, n, made, |ops|);
    assert ops[..|ops|] == ops;
  }
}
