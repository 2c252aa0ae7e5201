/** The crash-safe replacement of a TLS certificate/key pair.

    The file system is a map from paths to contents.  Every rename, remove or
    file write is one atomic operation, and an interruption (a crash, or an
    error that makes the caller give up) leaves the effect of a prefix of the
    operations a call would have performed.  What loadCertificate accepts is a
    fixed predicate on file contents, passed around as `load`. */
module CertTransaction {
  import opened Base

  /** Auxiliary files carry the random suffix CreateTemp gave them. */
  datatype Path =
    | CertFile | KeyFile | JournalFile
    | CertTemp(n: nat) | KeyTemp(n: nat)
    | CertBackup(n: nat) | KeyBackup(n: nat)
    | JournalTemp(n: nat)

  datatype Tx = Tx(certTemp: Path, keyTemp: Path, certBackup: Option<Path>, keyBackup: Option<Path>)

  datatype Blob = Empty | Pem(id: int) | Record(tx: Tx)

  type Files = map<Path, Blob>
  type Loader = (Blob, Blob) -> bool

  datatype Pair = Pair(cert: Blob, key: Blob)

  datatype Op = Create(path: Path, contents: Blob) | Remove(path: Path) | Rename(source: Path, target: Path)

  function Apply(fs: Files, op: Op): Files {
    match op
    case Create(p, b) => fs[p := b]
    case Remove(p) => fs - {p}
    case Rename(a, b) => if a in fs then (fs - {a})[b := fs[a]] else fs
  }

  function Exec(fs: Files, ops: seq<Op>): Files
    decreases |ops|
  {
    if ops == [] then fs else Exec(Apply(fs, ops[0]), ops[1..])
  }

  function Get(fs: Files, p: Path): Option<Blob> {
    if p in fs then Some(fs[p]) else None
  }

  predicate Usable(load: Loader, fs: Files, cert: Path, key: Path) {
    cert in fs && key in fs && load(fs[cert], fs[key])
  }

  // ---------------------------------------------------------------- recovery

  datatype Error = BadJournal | BadPaths | NoCandidate | UnusableResult | OneSided | InvalidPair | JournalExists | Io

  datatype Candidate = Candidate(cert: Option<Path>, key: Option<Path>, installCert: bool, installKey: bool)

  function Candidates(tx: Tx): seq<Candidate> {
    [ Candidate(Some(CertFile), Some(KeyFile), false, false),
      Candidate(tx.certBackup, tx.keyBackup, true, true),
      Candidate(tx.certBackup, Some(KeyFile), true, false),
      Candidate(Some(CertFile), tx.keyBackup, false, true),
      Candidate(Some(tx.certTemp), Some(tx.keyTemp), true, true),
      Candidate(Some(CertFile), Some(tx.keyTemp), false, true),
      Candidate(Some(tx.certTemp), Some(KeyFile), true, false) ]
  }

  predicate CandidateUsable(load: Loader, fs: Files, c: Candidate) {
    c.cert.Some? && c.key.Some? && Usable(load, fs, c.cert.value, c.key.value)
  }

  function Choose(load: Loader, fs: Files, cs: seq<Candidate>): Option<Candidate> {
    if cs == [] then None
    else if CandidateUsable(load, fs, cs[0]) then Some(cs[0])
    else Choose(load, fs, cs[1..])
  }

  predicate ValidTx(tx: Tx) {
    && tx.certTemp.CertTemp? && tx.keyTemp.KeyTemp?
    && (tx.certBackup.Some? ==> tx.certBackup.value.CertBackup?)
    && (tx.keyBackup.Some? ==> tx.keyBackup.value.KeyBackup?)
  }

  function ReplaceOps(source: Path, target: Path): seq<Op> {
    if source == target then [] else [Remove(target), Rename(source, target)]
  }

  function InstallCertOps(c: Candidate): seq<Op>
    requires c.cert.Some?
  {
    if c.installCert then ReplaceOps(c.cert.value, CertFile) else []
  }

  function InstallKeyOps(c: Candidate): seq<Op>
    requires c.key.Some?
  {
    if c.installKey then ReplaceOps(c.key.value, KeyFile) else []
  }

  function InstallOps(c: Candidate): seq<Op>
    requires c.cert.Some? && c.key.Some?
  {
    InstallCertOps(c) + InstallKeyOps(c)
  }

  function Listed(p: Option<Path>): seq<Path> {
    if p.Some? then [p.value] else []
  }

  function Auxiliary(tx: Tx): seq<Path> {
    [tx.certTemp, tx.keyTemp] + Listed(tx.certBackup) + Listed(tx.keyBackup)
  }

  function RemoveAll(ps: seq<Path>): seq<Op> {
    seq(|ps|, i requires 0 <= i < |ps| => Remove(ps[i]))
  }

  function FinishOps(tx: Tx): seq<Op> {
    RemoveAll(Auxiliary(tx)) + [Remove(JournalFile)]
  }

  /** What one call of recoverCertificateTransaction does when nothing
      interrupts it: these operations in order, then this result. */
  datatype Plan = Plan(ops: seq<Op>, err: Option<Error>)

  function RecoveryPlan(load: Loader, fs: Files): Plan {
    if JournalFile !in fs then Plan([], None)
    else match fs[JournalFile]
      case Record(tx) =>
        if !ValidTx(tx) then Plan([], Some(BadPaths))
        else (match Choose(load, fs, Candidates(tx))
          case None => Plan([], Some(NoCandidate))
          case Some(c) =>
            if c.cert.None? || c.key.None? then Plan([], Some(NoCandidate))
            else if Usable(load, Exec(fs, InstallOps(c)), CertFile, KeyFile)
            then Plan(InstallOps(c) + FinishOps(tx), None)
            else Plan(InstallOps(c), Some(UnusableResult)))
      case _ => Plan([], Some(BadJournal))
  }

  // ---------------------------------------------------------------- rotation

  /** Suffixes CreateTemp hands out during one rotation. */
  datatype Names = Names(certTemp: nat, keyTemp: nat, certBackup: nat, keyBackup: nat, journalTemp: nat)

  predicate FreshNames(fs: Files, n: Names) {
    && CertTemp(n.certTemp) !in fs && KeyTemp(n.keyTemp) !in fs
    && CertBackup(n.certBackup) !in fs && KeyBackup(n.keyBackup) !in fs
    && JournalTemp(n.journalTemp) !in fs
  }

  function RotationTx(fs: Files, n: Names): Tx {
    Tx(CertTemp(n.certTemp), KeyTemp(n.keyTemp),
       if CertFile in fs then Some(CertBackup(n.certBackup)) else None,
       if KeyFile in fs then Some(KeyBackup(n.keyBackup)) else None)
  }

  /** Creating a file and then filling it, so that a crash may leave it empty. */
  function Stage(p: Path, b: Blob): seq<Op> { [Create(p, Empty), Create(p, b)] }

  /** reserveSibling creates the name and removes it again. */
  function Reserve(p: Option<Path>): seq<Op> {
    if p.Some? then [Create(p.value, Empty), Remove(p.value)] else []
  }

  function PrepareOps(fs: Files, n: Names, made: Pair): seq<Op> {
    var tx := RotationTx(fs, n);
    Stage(tx.certTemp, made.cert) + Stage(tx.keyTemp, made.key) +
    Reserve(tx.certBackup) + Reserve(tx.keyBackup) +
    Stage(JournalTemp(n.journalTemp), Record(tx))
  }

  function BackupOps(tx: Tx): seq<Op> {
    (if tx.certBackup.Some? then [Rename(CertFile, tx.certBackup.value)] else []) +
    (if tx.keyBackup.Some? then [Rename(KeyFile, tx.keyBackup.value)] else [])
  }

  function SwapOps(tx: Tx): seq<Op> {
    BackupOps(tx) + [Rename(tx.certTemp, CertFile), Rename(tx.keyTemp, KeyFile)]
  }

  function CommitOps(tx: Tx): seq<Op> { SwapOps(tx) + FinishOps(tx) }

  function RotationOps(fs: Files, n: Names, made: Pair): seq<Op> {
    PrepareOps(fs, n, made) + [Rename(JournalTemp(n.journalTemp), JournalFile)] + CommitOps(RotationTx(fs, n))
  }

  function Staged(fs: Files, n: Names): set<Path> {
    {CertTemp(n.certTemp), KeyTemp(n.keyTemp), CertBackup(n.certBackup), KeyBackup(n.keyBackup),
        JournalTemp(n.journalTemp)}
  }

  // ------------------------------------------------------------- whole runs

  /** One call, cut short after `done` of its operations.  A rotation that fails
      before its journal is installed additionally tries to remove what it
      staged; `cleaned` is the part of that which succeeded. */
  datatype Event =
    | Rotation(names: Names, made: Pair, done: nat, cleaned: set<Path>)
    | Recovery(done: nat)

  /** The pair at the configured paths. */
  function Installed(fs: Files): Option<Pair> {
    if CertFile in fs && KeyFile in fs then Some(Pair(fs[CertFile], fs[KeyFile])) else None
  }

  /** rotateCertificateLocked and ensureCertificateLocked start a rotation only
      here: no journal, and both files missing or both present and loadable. */
  predicate MayRotate(load: Loader, fs: Files) {
    && JournalFile !in fs
    && (CertFile in fs <==> KeyFile in fs)
    && (CertFile in fs ==> Usable(load, fs, CertFile, KeyFile))
  }

  /** generateCertificate made a loadable pair whose key fits no other certificate. */
  predicate Generated(load: Loader, fs: Files, made: Pair) {
    && load(made.cert, made.key)
    && (CertFile in fs ==> !load(fs[CertFile], made.key))
    && (KeyFile in fs ==> !load(made.cert, fs[KeyFile]))
  }

  predicate Legal(load: Loader, fs: Files, ev: Event) {
    match ev
    case Rotation(n, made, done, cleaned) =>
      && MayRotate(load, fs) && FreshNames(fs, n) && Generated(load, fs, made)
      && done <= |RotationOps(fs, n, made)| && cleaned <= Staged(fs, n)
      && (done > |PrepareOps(fs, n, made)| ==> cleaned == {})
    case Recovery(done) => done <= |RecoveryPlan(load, fs).ops|
  }

  function Step(load: Loader, fs: Files, ev: Event): Files
    requires Legal(load, fs, ev)
  {
    match ev
    case Rotation(n, made, done, cleaned) => Exec(fs, RotationOps(fs, n, made)[..done]) - cleaned
    case Recovery(done) => Exec(fs, RecoveryPlan(load, fs).ops[..done])
  }

  predicate LegalRun(load: Loader, fs: Files, evs: seq<Event>)
    decreases |evs|
  {
    evs == [] || (Legal(load, fs, evs[0]) && LegalRun(load, Step(load, fs, evs[0]), evs[1..]))
  }

  function Run(load: Loader, fs: Files, evs: seq<Event>): Files
    requires LegalRun(load, fs, evs)
    decreases |evs|
  {
    if evs == [] then fs else Run(load, Step(load, fs, evs[0]), evs[1..])
  }

  // ------------------------------------ the atomic register a run refines

  /** How many operations a rotation needs before its pair is the one that will
      survive: with an old pair, all renames up to the key install; the first
      time, only the journal install. */
  function CommitPoint(fs: Files, n: Names, made: Pair): nat {
    |PrepareOps(fs, n, made)| + 1 + (if CertFile in fs then |SwapOps(RotationTx(fs, n))| else 0)
  }

  function AbstractStep(load: Loader, fs: Files, reg: Option<Pair>, ev: Event): Option<Pair> {
    match ev
    case Rotation(n, made, done, _) => if done >= CommitPoint(fs, n, made) then Some(made) else reg
    case Recovery(_) => reg
  }

  function AbstractRun(load: Loader, fs: Files, reg: Option<Pair>, evs: seq<Event>): Option<Pair>
    requires LegalRun(load, fs, evs)
    decreases |evs|
  {
    if evs == [] then reg
    else AbstractRun(load, Step(load, fs, evs[0]), AbstractStep(load, fs, reg, evs[0]), evs[1..])
  }

  // ------------------------------------------------------------- invariant

  /** The pair is at the configured paths. */
  predicate Settled(fs: Files, p: Pair) { Installed(fs) == Some(p) }

  /** Each half of the old pair is at its configured path or in its backup, and
      nothing that could be mistaken for it is in the way. */
  predicate RollingBack(load: Loader, fs: Files, tx: Tx, p: Pair) {
    && tx.certBackup.Some? && tx.keyBackup.Some?
    && (Get(fs, CertFile) == Some(p.cert) || Get(fs, tx.certBackup.value) == Some(p.cert))
    && (Get(fs, KeyFile) == Some(p.key) || Get(fs, tx.keyBackup.value) == Some(p.key))
    && (CertFile in fs && fs[CertFile] != p.cert ==> !load(fs[CertFile], p.key))
    && Get(fs, tx.certBackup.value) in {None, Some(p.cert)}
    && Get(fs, tx.keyBackup.value) in {None, Some(p.key)}
    && Get(fs, KeyFile) in {None, Some(p.key)}
  }

  /** First-time creation: each half is at its configured path or still staged. */
  predicate RollingForward(fs: Files, tx: Tx, p: Pair) {
    && tx.certBackup.None? && tx.keyBackup.None?
    && (Get(fs, CertFile) == Some(p.cert) || Get(fs, tx.certTemp) == Some(p.cert))
    && (Get(fs, KeyFile) == Some(p.key) || Get(fs, tx.keyTemp) == Some(p.key))
    && Get(fs, tx.certTemp) in {None, Some(p.cert)}
    && Get(fs, tx.keyTemp) in {None, Some(p.key)}
    && Get(fs, CertFile) in {None, Some(p.cert)}
    && Get(fs, KeyFile) in {None, Some(p.key)}
  }

  predicate InTransit(load: Loader, fs: Files, tx: Tx, p: Pair) {
    && ValidTx(tx) && load(p.cert, p.key)
    && (Settled(fs, p) || RollingBack(load, fs, tx, p) || RollingForward(fs, tx, p))
  }

  /** `reg` is the pair the next completed recovery will leave behind. */
  predicate Holds(load: Loader, fs: Files, reg: Option<Pair>) {
    if JournalFile in fs then
      reg.Some? && fs[JournalFile].Record? && InTransit(load, fs, fs[JournalFile].tx, reg.value)
    else
      && (CertFile in fs <==> KeyFile in fs) && Installed(fs) == reg
      && (reg.Some? ==> load(reg.value.cert, reg.value.key))
  }

  // ------------------------------------------------- executing operations

  lemma {:induction false} ExecAppend(fs: Files, a: seq<Op>, b: seq<Op>)
    ensures Exec(fs, a + b) == Exec(Exec(fs, a), b)
    decreases |a|
  {
    if a == [] {
      assert a + b == b;
    } else {
      assert (a + b)[0] == a[0] && (a + b)[1..] == a[1..] + b;
      ExecAppend(Apply(fs, a[0]), a[1..], b);
    }
  }

  lemma ExecSnoc(fs: Files, ops: seq<Op>, j: nat)
    requires j < |ops|
    ensures Exec(fs, ops[..j + 1]) == Apply(Exec(fs, ops[..j]), ops[j])
  {
    assert ops[..j + 1] == ops[..j] + [ops[j]];
    ExecAppend(fs, ops[..j], [ops[j]]);
    assert Exec(Exec(fs, ops[..j]), [ops[j]]) == Apply(Exec(fs, ops[..j]), ops[j]);
  }

  lemma ExecPrefix(fs: Files, a: seq<Op>, b: seq<Op>, k: nat)
    requires k <= |a + b|
    ensures k <= |a| ==> Exec(fs, (a + b)[..k]) == Exec(fs, a[..k])
    ensures k >= |a| ==> Exec(fs, (a + b)[..k]) == Exec(Exec(fs, a), b[..k - |a|])
  {
    if k <= |a| {
      assert (a + b)[..k] == a[..k];
    }
    if k >= |a| {
      assert (a + b)[..k] == a + b[..k - |a|];
      ExecAppend(fs, a, b[..k - |a|]);
    }
  }

  function Elements(ps: seq<Path>): set<Path> { set p | p in ps }

  lemma {:induction false} ExecRemoveAll(fs: Files, ps: seq<Path>, k: nat)
    requires k <= |ps|
    ensures Exec(fs, RemoveAll(ps)[..k]) == fs - Elements(ps[..k])
  {
    if k > 0 {
      ExecRemoveAll(fs, ps, k - 1);
      ExecSnoc(fs, RemoveAll(ps), k - 1);
      assert ps[..k] == ps[..k - 1] + [ps[k - 1]];
      assert Elements(ps[..k]) == Elements(ps[..k - 1]) + {ps[k - 1]};
    }
  }

  function AuxiliarySet(tx: Tx): set<Path> { Elements(Auxiliary(tx)) }

  lemma NotAuxiliary(tx: Tx)
    requires ValidTx(tx)
    ensures CertFile !in AuxiliarySet(tx) && KeyFile !in AuxiliarySet(tx) && JournalFile !in AuxiliarySet(tx)
  {}

  lemma PartSubset(ps: seq<Path>, k: nat)
    requires k <= |ps|
    ensures Elements(ps[..k]) <= Elements(ps)
  {}

  lemma FinishPart(fs: Files, tx: Tx, k: nat)
    requires ValidTx(tx) && k < |FinishOps(tx)|
    ensures Exec(fs, FinishOps(tx)[..k]) == fs - Elements(Auxiliary(tx)[..k])
  {
    ExecPrefix(fs, RemoveAll(Auxiliary(tx)), [Remove(JournalFile)], k);
    ExecRemoveAll(fs, Auxiliary(tx), k);
  }

  lemma FinishWhole(fs: Files, tx: Tx)
    ensures Exec(fs, FinishOps(tx)) == fs - AuxiliarySet(tx) - {JournalFile}
  {
    var ps := Auxiliary(tx);
    ExecAppend(fs, RemoveAll(ps), [Remove(JournalFile)]);
    ExecRemoveAll(fs, ps, |ps|);
    assert RemoveAll(ps)[..|ps|] == RemoveAll(ps) && ps[..|ps|] == ps;
    var mid := fs - AuxiliarySet(tx);
    assert Exec(mid, [Remove(JournalFile)]) == Exec(Apply(mid, Remove(JournalFile)), []);
  }

  /** Any prefix of the cleanup leaves the configured pair alone, and the whole
      cleanup removes exactly the journalled files and the journal. */
  lemma ExecFinish(fs: Files, tx: Tx, k: nat)
    requires ValidTx(tx) && k <= |FinishOps(tx)|
    ensures var fs' := Exec(fs, FinishOps(tx)[..k]);
            && Get(fs', CertFile) == Get(fs, CertFile) && Get(fs', KeyFile) == Get(fs, KeyFile)
            && (k < |FinishOps(tx)| ==> Get(fs', JournalFile) == Get(fs, JournalFile))
            && (k == |FinishOps(tx)| ==> fs' == fs - AuxiliarySet(tx) - {JournalFile})
  {
    NotAuxiliary(tx);
    if k < |FinishOps(tx)| {
      FinishPart(fs, tx, k);
      PartSubset(Auxiliary(tx), k);
    } else {
      assert FinishOps(tx)[..k] == FinishOps(tx);
      FinishWhole(fs, tx);
    }
  }

  // ------------------------------------------------------ recovery is right

  lemma ChooseFrom(load: Loader, fs: Files, cs: seq<Candidate>, k: nat)
    requires k < |cs|
    ensures Choose(load, fs, cs[k..]) ==
            if CandidateUsable(load, fs, cs[k]) then Some(cs[k]) else Choose(load, fs, cs[k + 1..])
  {
    assert cs[k..][0] == cs[k] && cs[k..][1..] == cs[k + 1..];
  }

  lemma ChooseUnfolds(load: Loader, fs: Files, cs: seq<Candidate>)
    requires |cs| == 7
    ensures Choose(load, fs, cs) ==
            if CandidateUsable(load, fs, cs[0]) then Some(cs[0])
            else if CandidateUsable(load, fs, cs[1]) then Some(cs[1])
            else if CandidateUsable(load, fs, cs[2]) then Some(cs[2])
            else if CandidateUsable(load, fs, cs[3]) then Some(cs[3])
            else if CandidateUsable(load, fs, cs[4]) then Some(cs[4])
            else if CandidateUsable(load, fs, cs[5]) then Some(cs[5])
            else if CandidateUsable(load, fs, cs[6]) then Some(cs[6])
            else None
  {
    assert cs[0..] == cs && cs[7..] == [];
    ChooseFrom(load, fs, cs, 0); ChooseFrom(load, fs, cs, 1); ChooseFrom(load, fs, cs, 2); ChooseFrom(load, fs, cs, 3);
    ChooseFrom(load, fs, cs, 4); ChooseFrom(load, fs, cs, 5); ChooseFrom(load, fs, cs, 6);
  }

  /** In any state of an interrupted transaction, the first loadable candidate
      assembles exactly the pair the register holds. */
  lemma ChosenCandidate(load: Loader, fs: Files, tx: Tx, p: Pair) returns (c: Candidate)
    requires InTransit(load, fs, tx, p)
    ensures Choose(load, fs, Candidates(tx)) == Some(c) && c.cert.Some? && c.key.Some?
    ensures c.cert.value in fs && c.key.value in fs
    ensures fs[c.cert.value] == p.cert && fs[c.key.value] == p.key
    ensures c in Candidates(tx)
    ensures c.installCert <==> c.cert.value != CertFile
    ensures c.installKey <==> c.key.value != KeyFile
    ensures c.installCert ==> c.cert.value == tx.certTemp || c.cert == tx.certBackup
    ensures c.installKey ==> c.key.value == tx.keyTemp || c.key == tx.keyBackup
    ensures !Settled(fs, p) && tx.certBackup.Some? && c.installCert ==> c.cert == tx.certBackup
    ensures !Settled(fs, p) && tx.certBackup.Some? && c.installKey ==> c.key == tx.keyBackup
  {
    ChooseUnfolds(load, fs, Candidates(tx));
    c := Choose(load, fs, Candidates(tx)).value;
  }

  lemma ExecReplace(fs: Files, source: Path, target: Path, k: nat)
    requires source in fs && source != target && k <= 2
    ensures var ops := [Remove(target), Rename(source, target)];
            Exec(fs, ops[..k]) == if k == 0 then fs else if k == 1 then fs - {target}
                                  else (fs - {target} - {source})[target := fs[source]]
  {
    var ops := [Remove(target), Rename(source, target)];
    assert Exec(fs, ops[..0]) == fs;
    if k >= 1 { ExecSnoc(fs, ops, 0); }
    if k >= 2 { ExecSnoc(fs, ops, 1); }
  }

  predicate Rolling(load: Loader, fs: Files, tx: Tx, p: Pair) {
    ValidTx(tx) && load(p.cert, p.key) && (RollingBack(load, fs, tx, p) || RollingForward(fs, tx, p))
  }

  /** Nothing but the transaction's files and the pair differs. */
  ghost predicate SameOthers(fs: Files, fs': Files, tx: Tx) {
    forall q :: q !in AuxiliarySet(tx) + {CertFile, KeyFile} ==> Get(fs', q) == Get(fs, q)
  }

  lemma OwnPaths(tx: Tx)
    ensures tx.certTemp in AuxiliarySet(tx) && tx.keyTemp in AuxiliarySet(tx)
    ensures tx.certBackup.Some? ==> tx.certBackup.value in AuxiliarySet(tx)
    ensures tx.keyBackup.Some? ==> tx.keyBackup.value in AuxiliarySet(tx)
    ensures ValidTx(tx) ==> JournalFile !in AuxiliarySet(tx)
  {
    var a := Auxiliary(tx);
    assert a[0] == tx.certTemp && a[1] == tx.keyTemp;
    assert tx.certBackup.Some? ==> a[2] == tx.certBackup.value;
    assert tx.keyBackup.Some? ==> a[|a| - 1] == tx.keyBackup.value;
  }

  lemma MoveCert(load: Loader, fs: Files, tx: Tx, p: Pair, source: Path, k: nat)
    requires Rolling(load, fs, tx, p) && Get(fs, source) == Some(p.cert) && k <= 2
    requires source == if tx.certBackup.Some? then tx.certBackup.value else tx.certTemp
    ensures var fs' := Exec(fs, ReplaceOps(source, CertFile)[..k]);
            && Rolling(load, fs', tx, p) && SameOthers(fs, fs', tx) && Get(fs', JournalFile) == Get(fs, JournalFile)
            && (k == 2 ==> Get(fs', CertFile) == Some(p.cert))
            && (forall q :: q != source && q != CertFile ==> Get(fs', q) == Get(fs, q))
  {
    OwnPaths(tx);
    ExecReplace(fs, source, CertFile, k);
  }

  lemma MoveKey(load: Loader, fs: Files, tx: Tx, p: Pair, source: Path, k: nat)
    requires Rolling(load, fs, tx, p) && Get(fs, source) == Some(p.key) && k <= 2
    requires source == if tx.keyBackup.Some? then tx.keyBackup.value else tx.keyTemp
    ensures var fs' := Exec(fs, ReplaceOps(source, KeyFile)[..k]);
            && Rolling(load, fs', tx, p) && SameOthers(fs, fs', tx) && Get(fs', JournalFile) == Get(fs, JournalFile)
            && (k == 2 ==> Get(fs', KeyFile) == Some(p.key))
            && Get(fs', CertFile) == Get(fs, CertFile)
  {
    OwnPaths(tx);
    ExecReplace(fs, source, KeyFile, k);
  }

  lemma ExecNothing(fs: Files)
    ensures Exec(fs, []) == fs
  {}

  /** While the chosen pair is being moved into place, what is still missing can
      always be found again. */
  lemma InstallPrefix(load: Loader, fs: Files, tx: Tx, p: Pair, c: Candidate, k: nat)
    requires InTransit(load, fs, tx, p)
    requires Choose(load, fs, Candidates(tx)) == Some(c) && c.cert.Some? && c.key.Some?
    requires k <= |InstallOps(c)|
    ensures var fs' := Exec(fs, InstallOps(c)[..k]);
            && InTransit(load, fs', tx, p) && Get(fs', JournalFile) == Get(fs, JournalFile)
            && (k == |InstallOps(c)| ==> Settled(fs', p))
            && SameOthers(fs, fs', tx)
  {
    var c' := ChosenCandidate(load, fs, tx, p);
    if Settled(fs, p) {
      assert InstallOps(c)[..k] == [];
      ExecNothing(fs);
    } else {
      InstallMoves(load, fs, tx, p, c, k);
    }
  }

  lemma InstallMoves(load: Loader, fs: Files, tx: Tx, p: Pair, c: Candidate, k: nat)
    requires Rolling(load, fs, tx, p) && c.cert.Some? && c.key.Some? && k <= |InstallOps(c)|
    requires Get(fs, c.cert.value) == Some(p.cert) && Get(fs, c.key.value) == Some(p.key)
    requires if c.installCert then c.cert == (if tx.certBackup.Some? then tx.certBackup else Some(tx.certTemp))
             else c.cert.value == CertFile
    requires if c.installKey then c.key == (if tx.keyBackup.Some? then tx.keyBackup else Some(tx.keyTemp))
             else c.key.value == KeyFile
    ensures var fs' := Exec(fs, InstallOps(c)[..k]);
            && Rolling(load, fs', tx, p) && Get(fs', JournalFile) == Get(fs, JournalFile)
            && (k == |InstallOps(c)| ==> Settled(fs', p))
            && SameOthers(fs, fs', tx)
  {
    var a, b := InstallCertOps(c), InstallKeyOps(c);
    var mid := Exec(fs, a);
    ExecPrefix(fs, a, b, k);
    ExecNothing(fs);
    assert a[..|a|] == a && b[..|b|] == b;
    if c.installCert {
      MoveCert(load, fs, tx, p, c.cert.value, 2);
      if k < |a| { MoveCert(load, fs, tx, p, c.cert.value, k); }
    }
    assert Rolling(load, mid, tx, p) && Get(mid, CertFile) == Some(p.cert) && Get(mid, c.key.value) == Some(p.key);
    if k >= |a| {
      ExecNothing(mid);
      if c.installKey { MoveKey(load, mid, tx, p, c.key.value, k - |a|); }
    }
  }

  function Restored(fs: Files, tx: Tx, p: Pair): Files {
    (fs - AuxiliarySet(tx) - {JournalFile})[CertFile := p.cert][KeyFile := p.key]
  }

  lemma RecoveryPlanShape(load: Loader, fs: Files, p: Pair) returns (c: Candidate)
    requires JournalFile in fs && Holds(load, fs, Some(p))
    ensures var tx := fs[JournalFile].tx;
            && Choose(load, fs, Candidates(tx)) == Some(c) && c.cert.Some? && c.key.Some?
            && RecoveryPlan(load, fs) == Plan(InstallOps(c) + FinishOps(tx), None)
  {
    var tx := fs[JournalFile].tx;
    c := ChosenCandidate(load, fs, tx, p);
    InstallPrefix(load, fs, tx, p, c, |InstallOps(c)|);
    assert InstallOps(c)[..|InstallOps(c)|] == InstallOps(c);
    PlanFrom(load, fs, tx, c);
  }

  lemma PlanFrom(load: Loader, fs: Files, tx: Tx, c: Candidate)
    requires JournalFile in fs && fs[JournalFile] == Record(tx) && ValidTx(tx)
    requires Choose(load, fs, Candidates(tx)) == Some(c) && c.cert.Some? && c.key.Some?
    requires Usable(load, Exec(fs, InstallOps(c)), CertFile, KeyFile)
    ensures RecoveryPlan(load, fs) == Plan(InstallOps(c) + FinishOps(tx), None)
  {}

  lemma FinishRestores(fs: Files, mid: Files, tx: Tx, p: Pair)
    requires ValidTx(tx) && Settled(mid, p)
    requires SameOthers(fs, mid, tx)
    ensures Exec(mid, FinishOps(tx)) == Restored(fs, tx, p)
  {
    ExecFinish(mid, tx, |FinishOps(tx)|);
    assert FinishOps(tx)[..|FinishOps(tx)|] == FinishOps(tx);
    forall q ensures Get(mid - AuxiliarySet(tx) - {JournalFile}, q) == Get(Restored(fs, tx, p), q) {
      assert q !in AuxiliarySet(tx) + {CertFile, KeyFile} ==> Get(mid, q) == Get(fs, q);
    }
    SameFiles(mid - AuxiliarySet(tx) - {JournalFile}, Restored(fs, tx, p));
  }

  lemma RestoredPair(fs: Files, tx: Tx, p: Pair)
    requires ValidTx(tx)
    ensures var done := Restored(fs, tx, p);
            JournalFile !in done && Installed(done) == Some(p) && AuxiliarySet(tx) !! done.Keys
  {
    NotAuxiliary(tx);
  }

  lemma RestoredHolds(load: Loader, fs: Files, tx: Tx, p: Pair)
    requires ValidTx(tx) && load(p.cert, p.key)
    ensures Holds(load, Restored(fs, tx, p), Some(p))
  {
    RestoredPair(fs, tx, p);
  }

  lemma RecoveryInstalls(load: Loader, fs: Files, p: Pair, c: Candidate, k: nat)
    requires JournalFile in fs && Holds(load, fs, Some(p)) && c.cert.Some? && c.key.Some?
    requires Choose(load, fs, Candidates(fs[JournalFile].tx)) == Some(c) && k <= |InstallOps(c)|
    ensures var fs' := Exec(fs, InstallOps(c)[..k]);
            Holds(load, fs', Some(p)) && Get(fs', JournalFile) == Get(fs, JournalFile)
  {
    InstallPrefix(load, fs, fs[JournalFile].tx, p, c, k);
  }

  lemma RecoveryFinishes(load: Loader, fs: Files, mid: Files, p: Pair, j: nat)
    requires JournalFile in fs && Holds(load, fs, Some(p)) && Settled(mid, p)
    requires Get(mid, JournalFile) == Get(fs, JournalFile) && SameOthers(fs, mid, fs[JournalFile].tx)
    requires j <= |FinishOps(fs[JournalFile].tx)|
    ensures var finish := FinishOps(fs[JournalFile].tx); var fs' := Exec(mid, finish[..j]);
            && Holds(load, fs', Some(p))
            && (j < |finish| ==> Get(fs', JournalFile) == Get(fs, JournalFile))
            && (j == |finish| ==> fs' == Restored(fs, fs[JournalFile].tx, p))
  {
    var tx := fs[JournalFile].tx;
    if j == |FinishOps(tx)| {
      assert FinishOps(tx)[..j] == FinishOps(tx);
      FinishRestores(fs, mid, tx, p);
      RestoredHolds(load, fs, tx, p);
    } else {
      ExecFinish(mid, tx, j);
    }
  }

  /** A recovery cut short anywhere keeps the register; one that runs to its end
      reports no error, puts exactly the register's pair at the configured
      paths, removes the journal and every journalled file, and touches nothing else. */
  lemma RecoveryKeeps(load: Loader, fs: Files, p: Pair, k: nat)
    requires JournalFile in fs && Holds(load, fs, Some(p))
    requires k <= |RecoveryPlan(load, fs).ops|
    ensures RecoveryPlan(load, fs).err == None
    ensures var plan := RecoveryPlan(load, fs); var fs' := Exec(fs, plan.ops[..k]);
            && Holds(load, fs', Some(p))
            && (k < |plan.ops| ==> Get(fs', JournalFile) == Get(fs, JournalFile))
            && (k == |plan.ops| ==> fs' == Restored(fs, fs[JournalFile].tx, p))
  {
    var tx := fs[JournalFile].tx;
    var c := RecoveryPlanShape(load, fs, p);
    var install, finish := InstallOps(c), FinishOps(tx);
    ExecPrefix(fs, install, finish, k);
    if k < |install| {
      RecoveryInstalls(load, fs, p, c, k);
    } else {
      InstallPrefix(load, fs, tx, p, c, |install|);
      assert install[..|install|] == install;
      RecoveryFinishes(load, fs, Exec(fs, install), p, k - |install|);
    }
  }

  lemma SameFiles(a: Files, b: Files)
    requires forall q :: Get(a, q) == Get(b, q)
    ensures a == b
  {
    forall q ensures (q in a <==> q in b) && (q in a ==> a[q] == b[q]) {
      assert Get(a, q) == Get(b, q);
    }
  }

  // ------------------------------------------------------ rotation is right

  predicate Within(op: Op, own: set<Path>) {
    match op
    case Create(p, _) => p in own
    case Remove(p) => p in own
    case Rename(a, b) => a in own && b in own
  }

  /** Operations on some files leave every other file alone. */
  lemma {:induction false} OthersUntouched(fs: Files, ops: seq<Op>, own: set<Path>)
    requires forall op :: op in ops ==> Within(op, own)
    ensures forall q :: q !in own ==> Get(Exec(fs, ops), q) == Get(fs, q)
    decreases |ops|
  {
    if ops != [] {
      assert ops[0] in ops;
      OthersUntouched(Apply(fs, ops[0]), ops[1..], own);
    }
  }

  lemma PrepareIsPrivate(fs: Files, n: Names, made: Pair, k: nat)
    requires k <= |PrepareOps(fs, n, made)|
    ensures forall q :: q !in Staged(fs, n) ==> Get(Exec(fs, PrepareOps(fs, n, made)[..k]), q) == Get(fs, q)
  {
    OthersUntouched(fs, PrepareOps(fs, n, made)[..k], Staged(fs, n));
  }

  lemma ExecTwo(fs: Files, a: Op, b: Op)
    ensures Exec(fs, [a, b]) == Apply(Apply(fs, a), b)
  {
    assert [a, b][1..] == [b];
    assert Exec(Apply(fs, a), [b]) == Exec(Apply(Apply(fs, a), b), []);
  }

  lemma ExecStage(fs: Files, p: Path, b: Blob)
    ensures Exec(fs, Stage(p, b)) == fs[p := b]
  {
    ExecTwo(fs, Create(p, Empty), Create(p, b));
    assert fs[p := Empty][p := b] == fs[p := b];
  }

  lemma ExecReserve(fs: Files, p: Option<Path>)
    ensures Exec(fs, Reserve(p)) == if p.Some? then fs - {p.value} else fs
  {
    if p.Some? {
      ExecTwo(fs, Create(p.value, Empty), Remove(p.value));
      assert fs[p.value := Empty] - {p.value} == fs - {p.value};
    }
  }

  /** The file system at the moment the journal appears. */
  function Journalled(fs: Files, n: Names, made: Pair): Files {
    var tx := RotationTx(fs, n);
    fs[tx.certTemp := made.cert][tx.keyTemp := made.key][JournalFile := Record(tx)]
  }

  lemma PrepareReachesJournal(fs: Files, n: Names, made: Pair)
    requires FreshNames(fs, n)
    ensures Exec(fs, PrepareOps(fs, n, made) + [Rename(JournalTemp(n.journalTemp), JournalFile)]) ==
            Journalled(fs, n, made)
  {
    var tx := RotationTx(fs, n);
    var jt := JournalTemp(n.journalTemp);
    var a, b, c, d, e := Stage(tx.certTemp, made.cert), Stage(tx.keyTemp, made.key), Reserve(tx.certBackup),
        Reserve(tx.keyBackup), Stage(jt, Record(tx));
    var fs1 := fs[tx.certTemp := made.cert];
    var fs2 := fs1[tx.keyTemp := made.key];
    ExecAppend(fs, a + b + c + d + e, [Rename(jt, JournalFile)]);
    ExecAppend(fs, a + b + c + d, e);
    ExecAppend(fs, a + b + c, d);
    ExecAppend(fs, a + b, c);
    ExecAppend(fs, a, b);
    ExecStage(fs, tx.certTemp, made.cert);
    ExecStage(fs1, tx.keyTemp, made.key);
    ExecReserve(fs2, tx.certBackup);
    assert tx.certBackup.Some? ==> fs2 - {tx.certBackup.value} == fs2;
    ExecReserve(fs2, tx.keyBackup);
    assert tx.keyBackup.Some? ==> fs2 - {tx.keyBackup.value} == fs2;
    ExecStage(fs2, jt, Record(tx));
    var fs3 := fs2[jt := Record(tx)];
    assert Exec(fs3, [Rename(jt, JournalFile)]) == Apply(fs3, Rename(jt, JournalFile));
    SameFiles(Apply(fs3, Rename(jt, JournalFile)), Journalled(fs, n, made));
  }

  /** Contents of the six transaction files after `k` of the renames. */
  predicate SwappedTo(fs: Files, tx: Tx, was: Option<Pair>, made: Pair, k: nat) {
    var moved := if was.Some? then k else k + 2;
    && (was.Some? ==>
          && tx.certBackup.Some? && tx.keyBackup.Some?
          && Get(fs, tx.certBackup.value) == (if moved >= 1 then Some(was.value.cert) else None)
          && Get(fs, tx.keyBackup.value) == (if moved >= 2 then Some(was.value.key) else None))
    && (was.None? ==> tx.certBackup.None? && tx.keyBackup.None?)
    && Get(fs, CertFile) == (if moved >= 3 then Some(made.cert) else if moved == 0 then Some(was.value.cert) else None)
    && Get(fs, KeyFile) == (if moved >= 4 then Some(made.key) else if moved <= 1 then Some(was.value.key) else None)
    && Get(fs, tx.certTemp) == (if moved >= 3 then None else Some(made.cert))
    && Get(fs, tx.keyTemp) == (if moved >= 4 then None else Some(made.key))
  }

  lemma {:induction false} SwapPrefix(fs: Files, tx: Tx, was: Option<Pair>, made: Pair, k: nat)
    requires ValidTx(tx) && SwappedTo(fs, tx, was, made, 0)
    requires k <= |SwapOps(tx)|
    ensures |SwapOps(tx)| == if was.Some? then 4 else 2
    ensures var fs' := Exec(fs, SwapOps(tx)[..k]);
            && SwappedTo(fs', tx, was, made, k)
            && (forall q :: q !in AuxiliarySet(tx) + {CertFile, KeyFile} ==> Get(fs', q) == Get(fs, q))
  {
    if k > 0 {
      SwapPrefix(fs, tx, was, made, k - 1);
      ExecSnoc(fs, SwapOps(tx), k - 1);
    }
  }

  lemma SwapHolds(load: Loader, fs: Files, n: Names, made: Pair, k: nat)
    requires MayRotate(load, fs) && FreshNames(fs, n) && Generated(load, fs, made)
    requires k <= |SwapOps(RotationTx(fs, n))|
    ensures var tx := RotationTx(fs, n);
            var fs' := Exec(Journalled(fs, n, made), SwapOps(tx)[..k]);
            && Get(fs', JournalFile) == Some(Record(tx))
            && Holds(load, fs', if CertFile in fs && k < |SwapOps(tx)| then Installed(fs) else Some(made))
            && (k == |SwapOps(tx)| ==> Settled(fs', made))
            && (forall q :: q !in AuxiliarySet(tx) + {CertFile, KeyFile, JournalFile} ==> Get(fs', q) == Get(fs, q))
  {
    SwapPrefix(Journalled(fs, n, made), RotationTx(fs, n), Installed(fs), made, k);
  }

  /** Once the journal is there, an interruption leaves the old pair before the
      key install and the new pair after it; a first pair survives as soon as
      the journal does. */
  lemma CommitKeeps(load: Loader, fs: Files, n: Names, made: Pair, k: nat)
    requires MayRotate(load, fs) && FreshNames(fs, n) && Generated(load, fs, made)
    requires k <= |CommitOps(RotationTx(fs, n))|
    ensures var tx := RotationTx(fs, n);
            var fs' := Exec(Journalled(fs, n, made), CommitOps(tx)[..k]);
            && Holds(load, fs', if CertFile in fs && k < |SwapOps(tx)| then Installed(fs) else Some(made))
            && (k == |CommitOps(tx)| ==> fs' == fs[CertFile := made.cert][KeyFile := made.key])
            && (k < |CommitOps(tx)| ==> Get(fs', JournalFile) == Some(Record(tx)))
            && (forall q :: q !in AuxiliarySet(tx) + {CertFile, KeyFile, JournalFile} ==> Get(fs', q) == Get(fs, q))
  {
    var tx := RotationTx(fs, n);
    var start := Journalled(fs, n, made);
    var swap := SwapOps(tx);
    ExecPrefix(start, swap, FinishOps(tx), k);
    if k < |swap| {
      SwapHolds(load, fs, n, made, k);
    } else {
      SwapHolds(load, fs, n, made, |swap|);
      assert swap[..|swap|] == swap;
      var mid := Exec(start, swap);
      ExecFinish(mid, tx, k - |swap|);
      FinishIsPrivate(mid, tx, k - |swap|);
      if k == |CommitOps(tx)| {
        CommitCleans(fs, n, made, mid);
      }
    }
  }

  lemma CommitCleans(fs: Files, n: Names, made: Pair, mid: Files)
    requires FreshNames(fs, n) && JournalFile !in fs && Settled(mid, made)
    requires forall q :: q !in AuxiliarySet(RotationTx(fs, n)) + {CertFile, KeyFile, JournalFile} ==>
             Get(mid, q) == Get(fs, q)
    ensures mid - AuxiliarySet(RotationTx(fs, n)) - {JournalFile} == fs[CertFile := made.cert][KeyFile := made.key]
  {
    var aux := AuxiliarySet(RotationTx(fs, n));
    var done := fs[CertFile := made.cert][KeyFile := made.key];
    forall q ensures Get(mid - aux - {JournalFile}, q) == Get(done, q) {
      assert q !in aux + {CertFile, KeyFile, JournalFile} ==> Get(mid, q) == Get(fs, q);
      assert q in aux ==> q !in fs;
    }
    SameFiles(mid - aux - {JournalFile}, done);
  }

  lemma FinishIsPrivate(fs: Files, tx: Tx, k: nat)
    requires k <= |FinishOps(tx)|
    ensures forall q :: q !in AuxiliarySet(tx) + {JournalFile} ==> Get(Exec(fs, FinishOps(tx)[..k]), q) == Get(fs, q)
  {
    OthersUntouched(fs, FinishOps(tx)[..k], AuxiliarySet(tx) + {JournalFile});
  }

  lemma RotationPrefix(fs: Files, n: Names, made: Pair, k: nat)
    requires FreshNames(fs, n) && k <= |RotationOps(fs, n, made)|
    ensures var m := |PrepareOps(fs, n, made)|; var fs' := Exec(fs, RotationOps(fs, n, made)[..k]);
            && (k <= m ==> fs' == Exec(fs, PrepareOps(fs, n, made)[..k]))
            && (k > m ==> fs' == Exec(Journalled(fs, n, made), CommitOps(RotationTx(fs, n))[..k - m - 1]))
  {
    var prep, jr := PrepareOps(fs, n, made), [Rename(JournalTemp(n.journalTemp), JournalFile)];
    ExecPrefix(fs, prep + jr, CommitOps(RotationTx(fs, n)), k);
    if k <= |prep| {
      ExecPrefix(fs, prep, jr, k);
    } else {
      PrepareReachesJournal(fs, n, made);
    }
  }

  lemma StepKeeps(load: Loader, fs: Files, reg: Option<Pair>, ev: Event)
    requires Holds(load, fs, reg) && Legal(load, fs, ev)
    ensures Holds(load, Step(load, fs, ev), AbstractStep(load, fs, reg, ev))
  {
    match ev
    case Rotation(n, made, k, cleaned) =>
      RotationPrefix(fs, n, made, k);
      var m := |PrepareOps(fs, n, made)|;
      var fs' := Exec(fs, RotationOps(fs, n, made)[..k]);
      if k <= m {
        PrepareIsPrivate(fs, n, made, k);
        assert Get(fs', CertFile) == Get(fs, CertFile) && Get(fs', KeyFile) == Get(fs, KeyFile)
               && Get(fs', JournalFile) == Get(fs, JournalFile);
      } else {
        CommitKeeps(load, fs, n, made, k - m - 1);
        assert fs' - cleaned == fs';
      }
    case Recovery(k) =>
      if JournalFile in fs {
        RecoveryKeeps(load, fs, reg.value, k);
      } else {
        assert RecoveryPlan(load, fs).ops[..k] == [];
      }
  }

  // ------------------------------------------------------------ main results

  /** However many rotations and recoveries were cut short, and wherever, the
      directory refines an atomic register. */
  lemma {:induction false} RunRefinesRegister(load: Loader, fs: Files, reg: Option<Pair>, evs: seq<Event>)
    requires Holds(load, fs, reg) && LegalRun(load, fs, evs)
    ensures Holds(load, Run(load, fs, evs), AbstractRun(load, fs, reg, evs))
    decreases |evs|
  {
    if evs != [] {
      StepKeeps(load, fs, reg, evs[0]);
      RunRefinesRegister(load, Step(load, fs, evs[0]), AbstractStep(load, fs, reg, evs[0]), evs[1..]);
    }
  }

  lemma CompletedRecovery(load: Loader, fs: Files, reg: Option<Pair>)
    requires Holds(load, fs, reg)
    ensures var plan := RecoveryPlan(load, fs); var done := Exec(fs, plan.ops);
            && plan.err == None
            && MayRotate(load, done) && Installed(done) == reg
            && (JournalFile in fs ==> reg.Some? && AuxiliarySet(fs[JournalFile].tx) !! done.Keys)
  {
    var plan := RecoveryPlan(load, fs);
    if JournalFile in fs {
      RecoveryKeeps(load, fs, reg.value, |plan.ops|);
      assert plan.ops[..|plan.ops|] == plan.ops;
      RestoredPair(fs, fs[JournalFile].tx, reg.value);
    }
  }

  /** After any such run the next recovery that is allowed to finish succeeds,
      leaves exactly the register's pair (loadable, or none at all), and no
      journal or journalled file. */
  lemma RecoveryAlwaysSucceeds(load: Loader, fs: Files, evs: seq<Event>)
    requires MayRotate(load, fs) && LegalRun(load, fs, evs)
    ensures var end := Run(load, fs, evs); var plan := RecoveryPlan(load, end); var done := Exec(end, plan.ops);
            && plan.err == None
            && MayRotate(load, done)
            && Installed(done) == AbstractRun(load, fs, Installed(fs), evs)
            && (JournalFile in end ==>
                  end[JournalFile].Record? && Installed(done).Some? && AuxiliarySet(end[JournalFile].tx) !! done.Keys)
  {
    RunRefinesRegister(load, fs, Installed(fs), evs);
    CompletedRecovery(load, Run(load, fs, evs), AbstractRun(load, fs, Installed(fs), evs));
  }

  /** Recoveries, each cut short somewhere. */
  predicate RecoveriesOnly(evs: seq<Event>) { forall ev :: ev in evs ==> ev.Recovery? }

  /** What stays true from the journal install of a rotation that began in `fs`
      until its journal is gone again: only the transaction's own files differ. */
  ghost predicate OwnFilesOnly(fs: Files, tx: Tx, cur: Files) {
    && (JournalFile in cur ==> cur[JournalFile] == Record(tx))
    && (JournalFile !in cur ==> AuxiliarySet(tx) !! cur.Keys)
    && (forall q :: q !in AuxiliarySet(tx) + {CertFile, KeyFile, JournalFile} ==> Get(cur, q) == Get(fs, q))
  }

  lemma RecoveryWithin(load: Loader, fs: Files, p: Pair)
    requires JournalFile in fs && Holds(load, fs, Some(p))
    ensures forall op :: op in RecoveryPlan(load, fs).ops ==>
              Within(op, AuxiliarySet(fs[JournalFile].tx) + {CertFile, KeyFile, JournalFile})
  {
    var tx := fs[JournalFile].tx;
    var c := RecoveryPlanShape(load, fs, p);
    var c' := ChosenCandidate(load, fs, tx, p);
    OwnPaths(tx);
    FinishWithin(tx);
    InstallWithin(tx, c);
  }

  lemma FinishWithin(tx: Tx)
    ensures forall op :: op in FinishOps(tx) ==> Within(op, AuxiliarySet(tx) + {CertFile, KeyFile, JournalFile})
  {
    var ps := Auxiliary(tx);
    assert forall i :: 0 <= i < |ps| ==> ps[i] in AuxiliarySet(tx);
  }

  lemma InstallWithin(tx: Tx, c: Candidate)
    requires c.cert.Some? && c.key.Some?
    requires c.installCert ==> c.cert.value in AuxiliarySet(tx)
    requires c.installKey ==> c.key.value in AuxiliarySet(tx)
    ensures forall op :: op in InstallOps(c) ==> Within(op, AuxiliarySet(tx) + {CertFile, KeyFile, JournalFile})
  {}

  lemma RecoveryTouchesOwn(load: Loader, cur: Files, p: Pair, k: nat)
    requires JournalFile in cur && Holds(load, cur, Some(p)) && k <= |RecoveryPlan(load, cur).ops|
    ensures var done := Exec(cur, RecoveryPlan(load, cur).ops[..k]);
            forall q :: q !in AuxiliarySet(cur[JournalFile].tx) + {CertFile, KeyFile, JournalFile} ==>
                Get(done, q) == Get(cur, q)
  {
    var ops := RecoveryPlan(load, cur).ops;
    RecoveryWithin(load, cur, p);
    assert forall op :: op in ops[..k] ==> op in ops;
    OthersUntouched(cur, ops[..k], AuxiliarySet(cur[JournalFile].tx) + {CertFile, KeyFile, JournalFile});
  }

  lemma RecoveryOwnFilesOnly(load: Loader, fs: Files, tx: Tx, cur: Files, reg: Option<Pair>, k: nat)
    requires OwnFilesOnly(fs, tx, cur) && Holds(load, cur, reg) && k <= |RecoveryPlan(load, cur).ops|
    ensures OwnFilesOnly(fs, tx, Exec(cur, RecoveryPlan(load, cur).ops[..k]))
  {
    var ops := RecoveryPlan(load, cur).ops;
    if JournalFile in cur {
      RecoveryTouchesOwn(load, cur, reg.value, k);
      RecoveryKeeps(load, cur, reg.value, k);
      SameStill(fs, cur, Exec(cur, ops[..k]), AuxiliarySet(tx) + {CertFile, KeyFile, JournalFile});
    } else {
      assert ops[..k] == [];
    }
  }

  lemma SameStill(a: Files, b: Files, c: Files, own: set<Path>)
    requires forall q :: q !in own ==> Get(b, q) == Get(a, q)
    requires forall q :: q !in own ==> Get(c, q) == Get(b, q)
    ensures forall q :: q !in own ==> Get(c, q) == Get(a, q)
  {}

  lemma {:induction false} RecoveriesOwnFilesOnly(load: Loader, fs: Files, tx: Tx, cur: Files, reg: Option<Pair>,
      evs: seq<Event>)
    requires OwnFilesOnly(fs, tx, cur) && Holds(load, cur, reg)
    requires LegalRun(load, cur, evs) && RecoveriesOnly(evs)
    ensures OwnFilesOnly(fs, tx, Run(load, cur, evs)) && Holds(load, Run(load, cur, evs), reg)
    decreases |evs|
  {
    if evs != [] {
      assert evs[0] in evs;
      RecoveryOwnFilesOnly(load, fs, tx, cur, reg, evs[0].done);
      StepKeeps(load, cur, reg, evs[0]);
      RecoveriesOwnFilesOnly(load, fs, tx, Step(load, cur, evs[0]), reg, evs[1..]);
    }
  }

  /** Rotation is all-or-nothing: cut short after its journal install, followed
      by any number of interrupted recoveries and one finished recovery, it leaves
      the directory exactly as it was except for the pair, which is the old one
      before the key install and the new one after it (always the new one when
      there was none). */
  lemma RotationAllOrNothing(load: Loader, fs: Files, ev: Event, evs: seq<Event>)
    requires ev.Rotation? && Legal(load, fs, ev) && ev.done > |PrepareOps(fs, ev.names, ev.made)|
    requires LegalRun(load, Step(load, fs, ev), evs) && RecoveriesOnly(evs)
    ensures var end := Run(load, Step(load, fs, ev), evs); var plan := RecoveryPlan(load, end);
            var p := if CertFile in fs && ev.done < CommitPoint(fs, ev.names, ev.made) then Installed(fs).value
                else ev.made;
            && plan.err == None
            && Exec(end, plan.ops) == fs[CertFile := p.cert][KeyFile := p.key]
  {
    var tx := RotationTx(fs, ev.names);
    var p := if CertFile in fs && ev.done < CommitPoint(fs, ev.names, ev.made) then Installed(fs).value else ev.made;
    JournalledCut(load, fs, ev);
    RecoveriesOwnFilesOnly(load, fs, tx, Step(load, fs, ev), Some(p), evs);
    LastRecovery(load, fs, ev.names, Run(load, Step(load, fs, ev), evs), p);
  }

  lemma JournalledCut(load: Loader, fs: Files, ev: Event)
    requires ev.Rotation? && Legal(load, fs, ev) && ev.done > |PrepareOps(fs, ev.names, ev.made)|
    ensures OwnFilesOnly(fs, RotationTx(fs, ev.names), Step(load, fs, ev))
    ensures Holds(load, Step(load, fs, ev),
                  if CertFile in fs && ev.done < CommitPoint(fs, ev.names, ev.made) then Installed(fs)
                      else Some(ev.made))
  {
    var k := ev.done - |PrepareOps(fs, ev.names, ev.made)| - 1;
    RotationPrefix(fs, ev.names, ev.made, ev.done);
    CommitKeeps(load, fs, ev.names, ev.made, k);
    var cut := Exec(fs, RotationOps(fs, ev.names, ev.made)[..ev.done]);
    assert Step(load, fs, ev) == cut;
    if k == |CommitOps(RotationTx(fs, ev.names))| {
      assert cut == fs[CertFile := ev.made.cert][KeyFile := ev.made.key];
    } else {
      assert Get(cut, JournalFile) == Some(Record(RotationTx(fs, ev.names)));
    }
  }

  lemma LastRecovery(load: Loader, fs: Files, n: Names, end: Files, p: Pair)
    requires FreshNames(fs, n) && JournalFile !in fs
    requires OwnFilesOnly(fs, RotationTx(fs, n), end) && Holds(load, end, Some(p))
    ensures RecoveryPlan(load, end).err == None
    ensures Exec(end, RecoveryPlan(load, end).ops) == fs[CertFile := p.cert][KeyFile := p.key]
  {
    var tx := RotationTx(fs, n);
    var plan := RecoveryPlan(load, end);
    assert plan.ops[..|plan.ops|] == plan.ops;
    if JournalFile in end {
      RecoveryKeeps(load, end, p, |plan.ops|);
    }
    var done := Exec(end, plan.ops);
    forall q ensures Get(done, q) == Get(fs[CertFile := p.cert][KeyFile := p.key], q) {
      assert q !in AuxiliarySet(tx) + {CertFile, KeyFile, JournalFile} ==> Get(end, q) == Get(fs, q);
      assert q in AuxiliarySet(tx) ==> q !in fs;
    }
    SameFiles(done, fs[CertFile := p.cert][KeyFile := p.key]);
  }

  /** Cut short before its journal install, a rotation leaves the configured pair
      and every file but the ones it staged as they were, and recovery has nothing to do. */
  lemma RotationBeforeJournal(load: Loader, fs: Files, ev: Event)
    requires ev.Rotation? && Legal(load, fs, ev) && ev.done <= |PrepareOps(fs, ev.names, ev.made)|
    ensures RecoveryPlan(load, Step(load, fs, ev)) == Plan([], None)
    ensures forall q :: q !in Staged(fs, ev.names) ==> Get(Step(load, fs, ev), q) == Get(fs, q)
  {
    RotationPrefix(fs, ev.names, ev.made, ev.done);
    PrepareIsPrivate(fs, ev.names, ev.made, ev.done);
    var fs' := Exec(fs, RotationOps(fs, ev.names, ev.made)[..ev.done]);
    forall q | q !in Staged(fs, ev.names) ensures Get(fs' - ev.cleaned, q) == Get(fs, q) {
      assert Get(fs', q) == Get(fs, q);
    }
    assert Get(fs' - ev.cleaned, JournalFile) == Get(fs, JournalFile);
  }
}
