/**
 Any number of processes running begin_op / log_write / end_op over one log, with the committing
 process writing one block at a time and the machine crashing whenever it likes. A state records,
 beside the kernel's variables, the journal of every logged update since the disk was made and how
 much of it is durable; these history variables are never read by a kernel step.
 */
module GroupCommit {
  import opened Common
  import opened Storage
  import opened RedoLog
  import opened LogCode
  import opened Sums

  datatype Entry = Entry(op: nat, bn: nat, data: Block)

  /** Where a process stands; left is how many more new blocks its operation may record. */
  datatype Phase =
    | Idle
    | Asleep
    | InOp(op: nat, left: nat)
    | Logging(op: nat, left: nat, bn: nat, data: Block)
    | Committing

  datatype Fault = NoFault | TransactionTooBig | EndedWhileCommitting

  datatype State = State(
    disk: Disk, pinned: map<int, Block>, h: seq<int>, outstanding: int, committing: bool,
    procs: map<int, Phase>, written: nat, fault: Fault,
    init: Disk, journal: seq<Entry>, durable: nat, mark: nat, base: Disk, nextOp: nat)

  datatype Event =
    | Begin(p: int)
    | Check(p: int, bn: nat, data: Block)
    | Record(p: int)
    | End(p: int)
    | CommitWrite(p: int)
    | Finish(p: int)
    | Crash(crashes: seq<nat>)

  function PhaseOf(s: State, p: int): Phase {
    if p in s.procs then s.procs[p] else Idle
  }

  /** wakeup(&log): every process asleep in begin_op will try again. */
  function Wake(procs: map<int, Phase>): map<int, Phase> {
    map p | p in procs :: if procs[p] == Asleep then Idle else procs[p]
  }

  /** The writes of the commit in progress. */
  ghost function Plan(g: Geometry, s: State): seq<Write>
    requires g.Valid() && |s.base| == g.total && Loggable(g, s.h)
  {
    CommitWrites(g, s.base, s.pinned, s.h)
  }

  /** The state of a freshly booted machine whose log has been recovered. */
  ghost function Boot(d: Disk): State {
    State(d, map[], [], 0, false, map[], 0, NoFault, d, [], 0, 0, d, 0)
  }

  ghost predicate MidCommit(g: Geometry, s: State, p: int) {
    && PhaseOf(s, p) == Committing
    && g.Valid() && |s.base| == g.total && |s.disk| == g.total && Loggable(g, s.h)
  }

  /** An operation records at most MAXOPBLOCKS new blocks: the promise admission relies on. */
  ghost predicate WithinBudget(s: State, p: int) {
    PhaseOf(s, p).Logging? ==> PhaseOf(s, p).bn in s.h || PhaseOf(s, p).left > 0
  }

  ghost predicate CanStep(g: Geometry, s: State, e: Event) {
    match e
    case Begin(p) => PhaseOf(s, p) == Idle
    case Check(p, bn, _) => PhaseOf(s, p).InOp? && g.Home(bn)
    case Record(p) => PhaseOf(s, p).Logging? && WithinBudget(s, p)
    case End(p) => PhaseOf(s, p).InOp?
    case CommitWrite(p) => MidCommit(g, s, p) && s.written < |Plan(g, s)|
    case Finish(p) => MidCommit(g, s, p) && s.written == |Plan(g, s)|
    case Crash(_) => WellFormed(g, s.disk)
  }

  /** A panicked machine can only be rebooted. */
  ghost predicate Enabled(g: Geometry, s: State, e: Event) {
    CanStep(g, s, e) && (e.Crash? || s.fault == NoFault)
  }

  /** begin_op: admitted, or asleep. */
  function BeginStep(s: State, p: int): State {
    if Admits(|s.h|, s.outstanding, s.committing) then
      s.(outstanding := s.outstanding + 1,
         procs := s.procs[p := InOp(s.nextOp, MAXOPBLOCKS)],
         nextOp := s.nextOp + 1)
    else s.(procs := s.procs[p := Asleep])
  }

  /** log_write up to acquire: the size guard. */
  function CheckStep(g: Geometry, s: State, p: int, bn: nat, data: Block): State
    requires PhaseOf(s, p).InOp?
  {
    if TooBig(g, |s.h|) || s.outstanding < 1 then s.(fault := TransactionTooBig)
    else s.(procs := s.procs[p := Logging(PhaseOf(s, p).op, PhaseOf(s, p).left, bn, data)])
  }

  /** log_write under the lock: absorb or append, and pin. */
  function RecordStep(s: State, p: int): State
    requires PhaseOf(s, p).Logging? && WithinBudget(s, p)
  {
    var ph := PhaseOf(s, p);
    s.(h := Absorb(s.h, ph.bn),
       pinned := s.pinned[ph.bn := ph.data],
       journal := s.journal + [Entry(ph.op, ph.bn, ph.data)],
       procs := s.procs[p := InOp(ph.op, if ph.bn in s.h then ph.left else ph.left - 1)])
  }

  /** end_op's first critical section: the last operation out becomes the committer. */
  function EndStep(s: State, p: int): State {
    if s.committing then s.(outstanding := s.outstanding - 1, fault := EndedWhileCommitting)
    else if s.outstanding == 1 then
      s.(outstanding := 0, committing := true, procs := s.procs[p := Committing],
         written := 0, base := s.disk, mark := s.durable)
    else s.(outstanding := s.outstanding - 1, procs := Wake(s.procs[p := Idle]))
  }

  /** One block write of commit. */
  ghost function CommitWriteStep(g: Geometry, s: State, p: int): State
    requires MidCommit(g, s, p) && s.written < |Plan(g, s)|
  {
    s.(disk := Apply(s.disk, [Plan(g, s)[s.written]]),
       written := s.written + 1,
       durable := if s.written == |s.h| then |s.journal| else s.durable)
  }

  /** end_op's second critical section. */
  function FinishStep(s: State, p: int): State {
    s.(committing := false, h := [], pinned := s.pinned - Elements(s.h),
       procs := Wake(s.procs[p := Idle]), written := 0)
  }

  /** Power fails and the machine reboots; memory is lost and recovery may itself be interrupted. */
  ghost function CrashStep(g: Geometry, s: State, crashes: seq<nat>): State
    requires WellFormed(g, s.disk)
  {
    Boot(RecoverAfter(g, s.disk, crashes))
      .(init := s.init, journal := s.journal[..if s.durable <= |s.journal| then s.durable else 0],
        durable := s.durable, nextOp := s.nextOp)
  }

  /** One step; an event that is not enabled changes nothing. */
  ghost function Do(g: Geometry, s: State, e: Event): State {
    if !Enabled(g, s, e) then s
    else
      match e
      case Begin(p) => BeginStep(s, p)
      case Check(p, bn, data) => CheckStep(g, s, p, bn, data)
      case Record(p) => RecordStep(s, p)
      case End(p) => EndStep(s, p)
      case CommitWrite(p) => CommitWriteStep(g, s, p)
      case Finish(p) => FinishStep(s, p)
      case Crash(crashes) => CrashStep(g, s, crashes)
  }

  ghost function Run(g: Geometry, s: State, es: seq<Event>): State
    decreases |es|
  {
    if es == [] then s else Run(g, Do(g, s, es[0]), es[1..])
  }

  // ---- what the journal means ----

  function AsWrites(js: seq<Entry>): (ws: seq<Write>)
    ensures |ws| == |js| && forall i | 0 <= i < |js| :: ws[i] == Write(js[i].bn, js[i].data)
  {
    seq(|js|, i requires 0 <= i < |js| => Write(js[i].bn, js[i].data))
  }

  ghost predicate HomeEntries(g: Geometry, js: seq<Entry>) {
    forall i | 0 <= i < |js| :: g.Home(js[i].bn)
  }

  /** The disk that results from performing journalled updates one after the other. */
  ghost function Replay(g: Geometry, d: Disk, js: seq<Entry>): (r: Disk)
    requires |d| == g.total && HomeEntries(g, js)
    ensures |r| == |d|
  {
    Apply(d, AsWrites(js))
  }

  /** No operation has updates on both sides of position k. */
  ghost predicate WholeOps(js: seq<Entry>, k: nat) {
    forall i, j | 0 <= i < k <= j < |js| :: js[i].op != js[j].op
  }

  // ---- the invariant ----

  function ActiveWeight(ph: Phase): nat { if ph.InOp? || ph.Logging? then 1 else 0 }
  function LeftWeight(ph: Phase): nat { if ph.InOp? || ph.Logging? then ph.left else 0 }
  function CommitterWeight(ph: Phase): nat { if ph.Committing? then 1 else 0 }

  ghost predicate Live(s: State, op: nat) {
    exists p | p in s.procs :: (s.procs[p].InOp? || s.procs[p].Logging?) && s.procs[p].op == op
  }

  /** Space: the header never outgrows the log, counting what running operations may still add. */
  ghost predicate SpaceInv(g: Geometry, s: State) {
    && |s.h| + Weigh(s.procs, LeftWeight) <= LOGSIZE
    && s.outstanding == Weigh(s.procs, ActiveWeight)
    && Weigh(s.procs, CommitterWeight) == (if s.committing then 1 else 0)
    && (s.committing ==> s.outstanding == 0)
    && (forall p | p in s.procs :: LeftWeight(s.procs[p]) <= MAXOPBLOCKS)
    && (forall p | p in s.procs :: s.procs[p].Logging? ==> g.Home(s.procs[p].bn))
    && (forall i | 0 <= i < |s.h| :: g.Home(s.h[i]))
    && Distinct(s.h)
    && s.pinned.Keys == Elements(s.h)
    && s.fault != EndedWhileCommitting
    && (s.fault == TransactionTooBig ==> TooBig(g, |s.h|))
  }

  /** Nobody sleeps in begin_op who could be admitted. */
  ghost predicate SleepInv(s: State) {
    forall p | p in s.procs :: s.procs[p] == Asleep ==> !Admits(|s.h|, s.outstanding, s.committing)
  }

  /** Operations: finished ones own the durable part of the journal, and identifiers are fresh. */
  ghost predicate OpsInv(s: State) {
    && s.mark <= |s.journal| && s.durable <= |s.journal|
    && WholeOps(s.journal, s.durable)
    && (forall i | 0 <= i < |s.journal| :: s.journal[i].op < s.nextOp)
    && (forall p | p in s.procs :: s.procs[p].InOp? || s.procs[p].Logging? ==> s.procs[p].op < s.nextOp)
    && (forall i | 0 <= i < s.durable :: !Live(s, s.journal[i].op))
  }

  /** The disk the cached blocks stand on, and the part of the journal it holds. */
  function Under(s: State): Disk { if s.committing then s.base else s.disk }
  function Settled(s: State): nat { if s.committing then s.mark else s.durable }

  /** Contents: disk, log and pinned buffers together represent the journal. */
  ghost predicate DataInv(g: Geometry, s: State) {
    && g.Valid()
    && |s.init| == g.total
    && HomeEntries(g, s.journal)
    && s.mark <= |s.journal| && s.durable <= |s.journal|
    && Loggable(g, s.h)
    && Clean(g, Under(s))
    && SameHome(g, Under(s), Replay(g, s.init, s.journal[..Settled(s)]))
    && SameHome(g, Committed(g, Under(s), s.pinned, s.h), Replay(g, s.init, s.journal))
    && (s.h == [] ==> Settled(s) == |s.journal|)
    && (s.committing ==>
          && s.written <= |Plan(g, s)|
          && s.disk == Apply(s.base, Plan(g, s)[..s.written])
          && s.durable == if s.written <= |s.h| then s.mark else |s.journal|)
  }

  ghost predicate Inv(g: Geometry, s: State) {
    SpaceInv(g, s) && SleepInv(s) && OpsInv(s) && DataInv(g, s)
  }

  /** The log area holds a header block and every block the header records. */
  ghost predicate Inside(g: Geometry, s: State) {
    |s.h| + 1 <= g.size
  }

  /** The header never outgrows the log area in this run. */
  ghost predicate StaysInside(g: Geometry, s: State, es: seq<Event>)
    decreases |es|
  {
    Inside(g, s) && (es == [] || StaysInside(g, Do(g, s, es[0]), es[1..]))
  }

  /** The log area is large enough for a full header: mkfs would have to set nlog above LOGSIZE. */
  ghost predicate Roomy(g: Geometry) {
    g.Valid() && g.size >= LOGSIZE + 1
  }

  // ---- every step keeps the invariant ----

  lemma WakeFacts(m: map<int, Phase>)
    ensures Wake(m).Keys == m.Keys
    ensures Weigh(Wake(m), LeftWeight) == Weigh(m, LeftWeight)
    ensures Weigh(Wake(m), ActiveWeight) == Weigh(m, ActiveWeight)
    ensures Weigh(Wake(m), CommitterWeight) == Weigh(m, CommitterWeight)
  {
    WeighSame(m, Wake(m), LeftWeight);
    WeighSame(m, Wake(m), ActiveWeight);
    WeighSame(m, Wake(m), CommitterWeight);
  }

  /** Moving process p to phase ph changes the three counts by p's own share. */
  lemma Moves(m: map<int, Phase>, p: int, ph: Phase)
    ensures var was := if p in m then m[p] else Idle;
            && Weigh(m[p := ph], LeftWeight) + LeftWeight(was) == Weigh(m, LeftWeight) + LeftWeight(ph)
            && Weigh(m[p := ph], ActiveWeight) + ActiveWeight(was) == Weigh(m, ActiveWeight) + ActiveWeight(ph)
            && Weigh(m[p := ph], CommitterWeight) + CommitterWeight(was) == Weigh(m, CommitterWeight) + CommitterWeight(ph)
  {
    WeighUpdate(m, p, ph, LeftWeight);
    WeighUpdate(m, p, ph, ActiveWeight);
    WeighUpdate(m, p, ph, CommitterWeight);
  }

  /** An operation in flight rules out a commit. */
  lemma ActiveExcludesCommit(g: Geometry, s: State, p: int)
    requires SpaceInv(g, s) && ActiveWeight(PhaseOf(s, p)) == 1
    ensures !s.committing && s.outstanding >= 1
  {
    WeighAtLeast(s.procs, p, ActiveWeight);
  }

  lemma CommitterHolds(g: Geometry, s: State, p: int)
    requires SpaceInv(g, s) && PhaseOf(s, p) == Committing
    ensures s.committing && s.outstanding == 0
  {
    WeighAtLeast(s.procs, p, CommitterWeight);
  }

  /** The contents part of the invariant speaks only of these fields. */
  lemma DataUnchanged(g: Geometry, s: State, s': State)
    requires DataInv(g, s)
    requires s'.disk == s.disk && s'.pinned == s.pinned && s'.h == s.h && s'.committing == s.committing
    requires s'.written == s.written && s'.init == s.init && s'.journal == s.journal
    requires s'.durable == s.durable && s'.mark == s.mark && s'.base == s.base
    ensures DataInv(g, s')
  {
  }

  /** Operations that were finished stay finished when no old one comes back to life. */
  lemma OpsUnchanged(s: State, s': State)
    requires OpsInv(s)
    requires s'.journal == s.journal && s'.durable == s.durable && s'.mark == s.mark && s'.nextOp >= s.nextOp
    requires forall p | p in s'.procs :: (s'.procs[p].InOp? || s'.procs[p].Logging?) ==>
               s'.procs[p].op < s'.nextOp && (s'.procs[p].op == s.nextOp || Live(s, s'.procs[p].op))
    ensures OpsInv(s')
  {
    forall i | 0 <= i < s'.durable ensures !Live(s', s'.journal[i].op) {
      assert s.journal[i].op < s.nextOp;
    }
  }

  lemma BeginKeepsSpace(g: Geometry, s: State, p: int)
    requires SpaceInv(g, s) && PhaseOf(s, p) == Idle
    ensures SpaceInv(g, BeginStep(s, p))
  {
    hide Weigh, Distinct, Elements;
    if Admits(|s.h|, s.outstanding, s.committing) {
      Moves(s.procs, p, InOp(s.nextOp, MAXOPBLOCKS));
      WeighScaled(s.procs, LeftWeight, ActiveWeight, MAXOPBLOCKS);
    } else {
      Moves(s.procs, p, Asleep);
    }
  }

  lemma BeginKeepsOps(g: Geometry, s: State, p: int)
    requires OpsInv(s) && PhaseOf(s, p) == Idle
    ensures OpsInv(BeginStep(s, p))
  {
    OpsUnchanged(s, BeginStep(s, p));
  }

  lemma BeginKeepsSleep(g: Geometry, s: State, p: int)
    requires SleepInv(s) && PhaseOf(s, p) == Idle
    ensures SleepInv(BeginStep(s, p))
  {
  }

  lemma BeginKeeps(g: Geometry, s: State, p: int)
    requires Inv(g, s) && PhaseOf(s, p) == Idle
    ensures Inv(g, BeginStep(s, p))
  {
    hide Apply;
    BeginKeepsSpace(g, s, p);
    BeginKeepsSleep(g, s, p);
    BeginKeepsOps(g, s, p);
    DataUnchanged(g, s, BeginStep(s, p));
  }

  lemma CheckKeepsSpace(g: Geometry, s: State, p: int, bn: nat, data: Block)
    requires SpaceInv(g, s) && s.fault == NoFault && PhaseOf(s, p).InOp? && g.Home(bn)
    ensures SpaceInv(g, CheckStep(g, s, p, bn, data))
  {
    ActiveExcludesCommit(g, s, p);
    if !TooBig(g, |s.h|) {
      Moves(s.procs, p, Logging(PhaseOf(s, p).op, PhaseOf(s, p).left, bn, data));
    }
  }

  lemma CheckKeepsOps(g: Geometry, s: State, p: int, bn: nat, data: Block)
    requires OpsInv(s) && PhaseOf(s, p).InOp? && g.Home(bn)
    ensures OpsInv(CheckStep(g, s, p, bn, data))
  {
    OpsUnchanged(s, CheckStep(g, s, p, bn, data));
  }

  lemma CheckKeeps(g: Geometry, s: State, p: int, bn: nat, data: Block)
    requires Inv(g, s) && s.fault == NoFault && PhaseOf(s, p).InOp? && g.Home(bn)
    ensures Inv(g, CheckStep(g, s, p, bn, data))
  {
    hide Apply;
    CheckKeepsSpace(g, s, p, bn, data);
    CheckKeepsOps(g, s, p, bn, data);
    DataUnchanged(g, s, CheckStep(g, s, p, bn, data));
  }

  /** A recorded block is pinned once, and its reservation is spent when it is new. */
  lemma RecordKeepsSpace(g: Geometry, s: State, p: int)
    requires SpaceInv(g, s) && s.fault == NoFault && PhaseOf(s, p).Logging? && WithinBudget(s, p)
    ensures SpaceInv(g, RecordStep(s, p))
  {
    var s' := RecordStep(s, p);
    var bn := PhaseOf(s, p).bn;
    ActiveExcludesCommit(g, s, p);
    Moves(s.procs, p, s'.procs[p]);
    assert Elements(s'.h) == Elements(s.h) + {bn};
  }

  lemma RecordKeepsOps(g: Geometry, s: State, p: int)
    requires OpsInv(s) && PhaseOf(s, p).Logging? && WithinBudget(s, p)
    ensures OpsInv(RecordStep(s, p))
  {
    var s' := RecordStep(s, p);
    var op := PhaseOf(s, p).op;
    assert Live(s, op);
    forall i | 0 <= i < s'.durable ensures !Live(s', s'.journal[i].op) {
      assert s'.journal[i] == s.journal[i];
    }
    assert forall i, j | 0 <= i < s'.durable <= j < |s'.journal| :: s'.journal[i].op != s'.journal[j].op;
  }

  /** Appending an update to the journal writes that one block. */
  lemma ReplayAppend(g: Geometry, d: Disk, js: seq<Entry>, e: Entry)
    requires |d| == g.total && HomeEntries(g, js) && g.Home(e.bn)
    ensures HomeEntries(g, js + [e])
    ensures Replay(g, d, js + [e]) == Replay(g, d, js)[e.bn := e.data]
  {
    var ws := AsWrites(js + [e]);
    assert ws[..|js|] == AsWrites(js);
  }

  /** Pinning one more buffer changes the pending contents of that one block. */
  lemma PinOne(g: Geometry, d: Disk, pinned: map<int, Block>, h: seq<int>, bn: nat, data: Block)
    requires g.Valid() && |d| == g.total && g.Home(bn)
    requires Loggable(g, h) && Loggable(g, Absorb(h, bn)) && pinned.Keys == Elements(h)
    ensures Committed(g, d, pinned[bn := data], Absorb(h, bn)) == Committed(g, d, pinned, h)[bn := data]
  {
    var l, r := Committed(g, d, pinned[bn := data], Absorb(h, bn)), Committed(g, d, pinned, h)[bn := data];
    forall b | 0 <= b < g.total ensures l[b] == r[b] {
      CommittedAt(g, d, pinned, h, b);
      CommittedAt(g, d, pinned[bn := data], Absorb(h, bn), b);
    }
  }

  lemma RecordKeepsData(g: Geometry, s: State, p: int)
    requires SpaceInv(g, s) && DataInv(g, s) && s.fault == NoFault && PhaseOf(s, p).Logging? && WithinBudget(s, p)
    requires Inside(g, RecordStep(s, p))
    ensures DataInv(g, RecordStep(s, p))
  {
    hide Apply;
    var s' := RecordStep(s, p);
    var ph := PhaseOf(s, p);
    ActiveExcludesCommit(g, s, p);
    assert Loggable(g, s'.h) by { RecordKeepsSpace(g, s, p); }
    PinOne(g, s.disk, s.pinned, s.h, ph.bn, ph.data);
    ReplayAppend(g, s.init, s.journal, Entry(ph.op, ph.bn, ph.data));
    assert s'.journal[..s.durable] == s.journal[..s.durable];
  }

  lemma RecordKeepsSleep(g: Geometry, s: State, p: int)
    requires SleepInv(s) && PhaseOf(s, p).Logging? && WithinBudget(s, p)
    ensures SleepInv(RecordStep(s, p))
  {
  }

  lemma RecordKeeps(g: Geometry, s: State, p: int)
    requires Inv(g, s) && s.fault == NoFault && PhaseOf(s, p).Logging? && WithinBudget(s, p)
    requires Inside(g, RecordStep(s, p))
    ensures Inv(g, RecordStep(s, p))
  {
    RecordKeepsSpace(g, s, p);
    RecordKeepsSleep(g, s, p);
    RecordKeepsOps(g, s, p);
    RecordKeepsData(g, s, p);
  }

  lemma EndKeepsSpace(g: Geometry, s: State, p: int)
    requires SpaceInv(g, s) && PhaseOf(s, p).InOp?
    ensures SpaceInv(g, EndStep(s, p))
  {
    var s' := EndStep(s, p);
    ActiveExcludesCommit(g, s, p);
    if s.outstanding == 1 {
      Moves(s.procs, p, Committing);
    } else {
      Moves(s.procs, p, Idle);
      WakeFacts(s.procs[p := Idle]);
    }
  }

  /** The last operation to end freezes the disk as the base of the commit. */
  lemma EndLastKeepsData(g: Geometry, s: State, p: int)
    requires DataInv(g, s) && PhaseOf(s, p).InOp? && !s.committing && s.outstanding == 1
    ensures DataInv(g, EndStep(s, p))
  {
    var s' := EndStep(s, p);
    var none := Plan(g, s')[..0];
    assert none == [];
  }

  lemma EndKeepsOps(g: Geometry, s: State, p: int)
    requires OpsInv(s) && PhaseOf(s, p).InOp? && !s.committing
    ensures OpsInv(EndStep(s, p))
  {
    var s' := EndStep(s, p);
    OpsUnchanged(s, s'.(mark := s.mark));
    assert forall op :: Live(s', op) <==> Live(s'.(mark := s.mark), op);
  }

  lemma EndKeeps(g: Geometry, s: State, p: int)
    requires Inv(g, s) && PhaseOf(s, p).InOp?
    ensures Inv(g, EndStep(s, p))
  {
    EndKeepsSpace(g, s, p);
    ActiveExcludesCommit(g, s, p);
    EndKeepsOps(g, s, p);
    if s.outstanding == 1 {
      EndLastKeepsData(g, s, p);
    } else {
      DataUnchanged(g, s, EndStep(s, p));
    }
  }

  lemma ApplyNext(d: Disk, ws: seq<Write>, k: nat)
    requires InRange(ws, |d|) && k < |ws|
    ensures Apply(d, ws[..k + 1]) == Apply(Apply(d, ws[..k]), [ws[k]])
  {
    assert ws[..k + 1] == ws[..k] + [ws[k]];
    ApplyConcat(d, ws[..k], [ws[k]]);
  }

  lemma CommitWriteKeepsData(g: Geometry, s: State, p: int)
    requires DataInv(g, s) && MidCommit(g, s, p) && s.written < |Plan(g, s)| && s.committing
    ensures DataInv(g, CommitWriteStep(g, s, p))
  {
    hide Apply;
    ApplyNext(s.base, Plan(g, s), s.written);
  }

  /** When the header reaches the disk every journalled operation has ended. */
  lemma CommitWriteKeepsOps(g: Geometry, s: State, p: int)
    requires SpaceInv(g, s) && OpsInv(s) && MidCommit(g, s, p) && s.written < |Plan(g, s)|
    ensures OpsInv(CommitWriteStep(g, s, p))
  {
    var s' := CommitWriteStep(g, s, p);
    CommitterHolds(g, s, p);
    WeighZero(s.procs, ActiveWeight);
    forall op ensures !Live(s', op) {
      forall q | q in s'.procs ensures !(s'.procs[q].InOp? || s'.procs[q].Logging?) {
        assert ActiveWeight(s.procs[q]) == 0;
      }
    }
  }

  lemma CommitWriteKeeps(g: Geometry, s: State, p: int)
    requires Inv(g, s) && s.fault == NoFault && MidCommit(g, s, p) && s.written < |Plan(g, s)|
    ensures Inv(g, CommitWriteStep(g, s, p))
  {
    CommitterHolds(g, s, p);
    CommitWriteKeepsData(g, s, p);
    CommitWriteKeepsOps(g, s, p);
  }

  /** With nothing recorded the pending contents are the disk itself. */
  lemma NothingPending(g: Geometry, d: Disk, pinned: map<int, Block>)
    requires g.Valid() && |d| == g.total
    ensures Committed(g, d, pinned, []) == d
  {
    assert HomeWrites(g, d, pinned, []) == [];
  }

  lemma FinishKeepsData(g: Geometry, s: State, p: int)
    requires DataInv(g, s) && MidCommit(g, s, p) && s.written == |Plan(g, s)| && s.committing
    ensures DataInv(g, FinishStep(s, p))
  {
    hide Apply;
    var s' := FinishStep(s, p);
    var ws := Plan(g, s);
    assert ws[..s.written] == ws;
    CommitCompletes(g, s.base, s.pinned, s.h);
    assert s.durable == |s.journal|;
    assert s.journal[..s.durable] == s.journal;
    NothingPending(g, s'.disk, s'.pinned);
  }

  lemma FinishKeepsSpace(g: Geometry, s: State, p: int)
    requires SpaceInv(g, s) && s.fault == NoFault && MidCommit(g, s, p) && s.written == |Plan(g, s)|
    ensures SpaceInv(g, FinishStep(s, p))
  {
    CommitterHolds(g, s, p);
    Moves(s.procs, p, Idle);
    WakeFacts(s.procs[p := Idle]);
    assert Elements<int>([]) == {};
  }

  lemma FinishKeepsOps(g: Geometry, s: State, p: int)
    requires OpsInv(s) && MidCommit(g, s, p) && s.written == |Plan(g, s)|
    ensures OpsInv(FinishStep(s, p))
  {
    OpsUnchanged(s, FinishStep(s, p));
  }

  lemma FinishKeeps(g: Geometry, s: State, p: int)
    requires Inv(g, s) && s.fault == NoFault && MidCommit(g, s, p) && s.written == |Plan(g, s)|
    ensures Inv(g, FinishStep(s, p))
  {
    CommitterHolds(g, s, p);
    FinishKeepsSpace(g, s, p);
    FinishKeepsData(g, s, p);
    FinishKeepsOps(g, s, p);
  }

  /** What a reboot recovers from any state of the machine, whatever recovery itself goes through. */
  lemma RecoversToDurable(g: Geometry, s: State, crashes: seq<nat>)
    requires DataInv(g, s)
    ensures WellFormed(g, s.disk)
    ensures Clean(g, RecoverAfter(g, s.disk, crashes))
    ensures SameHome(g, RecoverAfter(g, s.disk, crashes), Replay(g, s.init, s.journal[..s.durable]))
  {
    hide Apply;
    if s.committing {
      CrashAtomicity(g, s.base, s.pinned, s.h, s.written, crashes);
      assert s.journal[..|s.journal|] == s.journal;
    } else {
      CleanRecovers(g, s.disk);
      RecoveryIgnoresCrashes(g, s.disk, crashes);
    }
  }

  lemma BootSpace(g: Geometry, s: State)
    requires s.procs == map[] && s.h == [] && s.pinned == map[] && s.outstanding == 0
    requires !s.committing && s.fault == NoFault
    ensures SpaceInv(g, s)
  {
    WeighZero(s.procs, LeftWeight);
    WeighZero(s.procs, ActiveWeight);
    WeighZero(s.procs, CommitterWeight);
    assert Elements<int>([]) == {};
  }

  /** A quiet machine whose disk is the replay of its whole journal. */
  lemma QuietData(g: Geometry, s: State)
    requires g.Valid() && |s.init| == g.total && HomeEntries(g, s.journal)
    requires !s.committing && s.h == [] && s.mark == 0 && s.durable == |s.journal|
    requires Clean(g, s.disk) && SameHome(g, s.disk, Replay(g, s.init, s.journal))
    ensures DataInv(g, s)
  {
    hide Apply;
    NothingPending(g, s.disk, s.pinned);
    assert s.journal[..s.durable] == s.journal;
  }

  lemma CrashKeepsData(g: Geometry, s: State, crashes: seq<nat>)
    requires DataInv(g, s) && WellFormed(g, s.disk)
    ensures DataInv(g, CrashStep(g, s, crashes))
  {
    hide Apply;
    RecoversToDurable(g, s, crashes);
    QuietData(g, CrashStep(g, s, crashes));
  }

  lemma CrashKeepsOps(g: Geometry, s: State, crashes: seq<nat>)
    requires OpsInv(s) && WellFormed(g, s.disk)
    ensures OpsInv(CrashStep(g, s, crashes))
  {
    assert forall op :: !Live(CrashStep(g, s, crashes), op);
  }

  lemma CrashKeeps(g: Geometry, s: State, crashes: seq<nat>)
    requires Inv(g, s) && WellFormed(g, s.disk)
    ensures Inv(g, CrashStep(g, s, crashes))
  {
    BootSpace(g, CrashStep(g, s, crashes));
    CrashKeepsOps(g, s, crashes);
    CrashKeepsData(g, s, crashes);
  }

  lemma StepKeeps(g: Geometry, s: State, e: Event)
    requires Inv(g, s) && Inside(g, Do(g, s, e))
    ensures Inv(g, Do(g, s, e))
  {
    hide Inv, SpaceInv, SleepInv, OpsInv, DataInv;
    if Enabled(g, s, e) {
      match e
      case Begin(p) => BeginKeeps(g, s, p);
      case Check(p, bn, data) => CheckKeeps(g, s, p, bn, data);
      case Record(p) => RecordKeeps(g, s, p);
      case End(p) => EndKeeps(g, s, p);
      case CommitWrite(p) => CommitWriteKeeps(g, s, p);
      case Finish(p) => FinishKeeps(g, s, p);
      case Crash(crashes) => CrashKeeps(g, s, crashes);
    }
  }

  lemma BootInv(g: Geometry, d: Disk)
    requires Clean(g, d)
    ensures Inv(g, Boot(d))
  {
    BootSpace(g, Boot(d));
    assert forall op :: !Live(Boot(d), op);
    QuietData(g, Boot(d));
  }

  lemma {:induction false} RunKeeps(g: Geometry, s: State, es: seq<Event>)
    requires Inv(g, s) && StaysInside(g, s, es)
    ensures Inv(g, Run(g, s, es))
    decreases |es|
  {
    if es != [] {
      StepKeeps(g, s, es[0]);
      RunKeeps(g, Do(g, s, es[0]), es[1..]);
    }
  }

  lemma {:induction false} InitNeverChanges(g: Geometry, s: State, es: seq<Event>)
    ensures Run(g, s, es).init == s.init
    decreases |es|
  {
    if es != [] {
      InitNeverChanges(g, Do(g, s, es[0]), es[1..]);
    }
  }

  // ---- the theorems ----

  /** What a crash in state s leaves, after a recovery that is itself interrupted any number of times. */
  ghost predicate Isolated(g: Geometry, d: Disk, s: State, crashes: seq<nat>) {
    && WellFormed(g, s.disk)
    && |d| == g.total
    && s.durable <= |s.journal| && HomeEntries(g, s.journal[..s.durable])
    && SameHome(g, RecoverAfter(g, s.disk, crashes), Replay(g, d, s.journal[..s.durable]))
    && WholeOps(s.journal, s.durable)
    && (forall i | 0 <= i < s.durable :: !Live(s, s.journal[i].op))
    && s.fault != EndedWhileCommitting
    && Inv(g, s)
  }

  lemma InvIsolates(g: Geometry, s: State, crashes: seq<nat>)
    requires Inv(g, s)
    ensures Isolated(g, s.init, s, crashes)
  {
    hide SameHome, RecoverAfter, Replay, WholeOps, Clean, WellFormed, SleepInv, Committed, Loggable, Weigh;
    RecoversToDurable(g, s, crashes);
  }

  lemma StepKeepsDurable(g: Geometry, s: State, e: Event)
    requires s.durable <= |s.journal|
    ensures var s' := Do(g, s, e);
            s.durable <= s'.durable <= |s'.journal| && s.journal[..s.durable] == s'.journal[..s.durable]
  {
  }

  lemma {:induction false} DurablePrefixGrows(g: Geometry, s: State, es: seq<Event>)
    requires s.durable <= |s.journal|
    ensures var s' := Run(g, s, es);
            s.durable <= s'.durable <= |s'.journal| && s.journal[..s.durable] == s'.journal[..s.durable]
    decreases |es|
  {
    if es != [] {
      var s1 := Do(g, s, es[0]);
      StepKeepsDurable(g, s, es[0]);
      DurablePrefixGrows(g, s1, es[1..]);
      var s2 := Run(g, s1, es[1..]);
      assert s1.journal[..s.durable] == s1.journal[..s1.durable][..s.durable];
      assert s2.journal[..s.durable] == s2.journal[..s1.durable][..s.durable];
    }
  }

  // ---- runs that stay inside the log ----

  lemma StepKeepsSpace(g: Geometry, s: State, e: Event)
    requires SpaceInv(g, s)
    ensures SpaceInv(g, Do(g, s, e))
  {
    if Enabled(g, s, e) {
      match e
      case Begin(p) => BeginKeepsSpace(g, s, p);
      case Check(p, bn, data) => CheckKeepsSpace(g, s, p, bn, data);
      case Record(p) => RecordKeepsSpace(g, s, p);
      case End(p) => EndKeepsSpace(g, s, p);
      case CommitWrite(p) =>
      case Finish(p) => FinishKeepsSpace(g, s, p);
      case Crash(crashes) => BootSpace(g, CrashStep(g, s, crashes));
    }
  }

  /** A log of more than LOGSIZE blocks is never outgrown. */
  lemma {:induction false} RoomyStaysInside(g: Geometry, s: State, es: seq<Event>)
    requires Roomy(g) && SpaceInv(g, s)
    ensures StaysInside(g, s, es)
    decreases |es|
  {
    if es != [] {
      StepKeepsSpace(g, s, es[0]);
      RoomyStaysInside(g, Do(g, s, es[0]), es[1..]);
    }
  }

  /** At most one process is between log_write's guard and its lock. */
  ghost predicate OneLogging(s: State) {
    forall p, q | p in s.procs && q in s.procs && s.procs[p].Logging? && s.procs[q].Logging? :: p == q
  }

  ghost predicate OneAtATime(g: Geometry, s: State, es: seq<Event>)
    decreases |es|
  {
    OneLogging(s) && (es == [] || OneAtATime(g, Do(g, s, es[0]), es[1..]))
  }

  /** There is room for the block that is about to be recorded. */
  ghost predicate RoomForNext(g: Geometry, s: State) {
    Inside(g, s) && forall p | p in s.procs && s.procs[p].Logging? :: |s.h| + 2 <= g.size
  }

  lemma OneKeepsRoom(g: Geometry, s: State, e: Event)
    requires RoomForNext(g, s) && OneLogging(s) && g.Valid()
    ensures RoomForNext(g, Do(g, s, e))
  {
    if Enabled(g, s, e) {
      var s' := Do(g, s, e);
      assert |s'.h| <= |s.h| + (if e.Record? then 1 else 0);
    }
  }

  /**
   In a log of any size, in particular the one mkfs makes, the header stays inside if the guard of
   log_write and the recording that follows it are never interleaved between two operations.
   */
  lemma {:induction false} OneAtATimeStaysInside(g: Geometry, s: State, es: seq<Event>)
    requires g.Valid() && RoomForNext(g, s) && OneAtATime(g, s, es)
    ensures StaysInside(g, s, es)
    decreases |es|
  {
    if es != [] {
      OneKeepsRoom(g, s, es[0]);
      OneAtATimeStaysInside(g, Do(g, s, es[0]), es[1..]);
    }
  }

  // ---- a commit is never left out ----

  /** With no operation outstanding and no commit running, the header is empty. */
  ghost predicate QuietInv(s: State) {
    s.outstanding == 0 && !s.committing ==> s.h == []
  }

  lemma StepKeepsQuiet(g: Geometry, s: State, e: Event)
    requires SpaceInv(g, s) && QuietInv(s)
    ensures QuietInv(Do(g, s, e))
  {
    hide Weigh, Apply, RecoverAfter, Plan;
    if Enabled(g, s, e) && e.Record? {
      ActiveExcludesCommit(g, s, e.p);
    }
  }

  lemma {:induction false} RunKeepsQuiet(g: Geometry, s: State, es: seq<Event>)
    requires SpaceInv(g, s) && QuietInv(s)
    ensures SpaceInv(g, Run(g, s, es)) && QuietInv(Run(g, s, es))
    decreases |es|
  {
    hide SpaceInv, QuietInv, Do;
    if es != [] {
      StepKeepsSpace(g, s, es[0]);
      StepKeepsQuiet(g, s, es[0]);
      RunKeepsQuiet(g, Do(g, s, es[0]), es[1..]);
    }
  }

  /** Home blocks and header change only while committing with no operation outstanding. */
  lemma OnlyCommitTouchesDisk(g: Geometry, s: State, e: Event)
    requires SpaceInv(g, s) && !e.Crash? && Do(g, s, e).disk != s.disk
    ensures e.CommitWrite? && s.committing && s.outstanding == 0
  {
    CommitterHolds(g, s, e.p);
  }

  /** When the commit finishes, everything logged before it is durable. */
  lemma FinishSettles(g: Geometry, s: State, p: int)
    requires Inv(g, s) && Enabled(g, s, Finish(p))
    ensures var s' := Do(g, s, Finish(p)); s'.durable == |s'.journal| && SameHome(g, s'.disk, Replay(g, s'.init, s'.journal))
  {
    hide Apply;
    CommitterHolds(g, s, p);
    FinishKeeps(g, s, p);
    var s' := Do(g, s, Finish(p));
    assert s'.journal[..s'.durable] == s'.journal;
  }

  /**
   Admission works for new blocks: an operation within its budget is never refused one. The guard
   of log_write runs before absorption is considered, so it does refuse exactly when the header
   is full, even to an operation that would only rewrite a block it has already logged.
   */
  lemma RefusedExactlyWhenFull(g: Geometry, s: State, p: int, bn: nat, data: Block)
    requires Roomy(g) && Inv(g, s) && Enabled(g, s, Check(p, bn, data))
    ensures Do(g, s, Check(p, bn, data)).fault == TransactionTooBig <==> |s.h| == LOGSIZE
    ensures PhaseOf(s, p).left > 0 ==> Do(g, s, Check(p, bn, data)).fault == NoFault
    ensures |s.h| == LOGSIZE ==> PhaseOf(s, p).left == 0
  {
    ActiveExcludesCommit(g, s, p);
    WeighAtLeast(s.procs, p, LeftWeight);
  }

  // ---- runs that fill the log ----

  lemma {:induction false} RunConcat(g: Geometry, s: State, a: seq<Event>, b: seq<Event>)
    ensures Run(g, s, a + b) == Run(g, Run(g, s, a), b)
    decreases |a|
  {
    if a == [] {
      assert a + b == b;
    } else {
      assert (a + b)[1..] == a[1..] + b;
      RunConcat(g, Do(g, s, a[0]), a[1..], b);
    }
  }

  ghost predicate Spread(g: Geometry, bs: seq<nat>) {
    && |bs| >= LOGSIZE
    && (forall i | 0 <= i < |bs| :: g.Home(bs[i]))
    && (forall i, j | 0 <= i < j < |bs| :: bs[i] != bs[j])
  }

  /** Three operations that have logged the first t blocks of bs in turn. */
  ghost predicate Filled(s: State, bs: seq<nat>, t: nat) {
    && t <= LOGSIZE <= |bs|
    && s.fault == NoFault && !s.committing && s.outstanding == 3
    && |s.h| == t && (forall i | 0 <= i < t :: s.h[i] == bs[i])
    && forall p | 0 <= p < 3 :: p in s.procs && s.procs[p].InOp? && s.procs[p].left == MAXOPBLOCKS - (t + 2 - p) / 3
  }

  function FillEvents(bs: seq<nat>, data: Block, t: nat): seq<Event>
    requires t <= |bs|
  {
    if t == 0 then [Begin(0), Begin(1), Begin(2)]
    else FillEvents(bs, data, t - 1) + [Check((t - 1) % 3, bs[t - 1], data), Record((t - 1) % 3)]
  }

  lemma FillStart(g: Geometry, d: Disk, bs: seq<nat>)
    requires Spread(g, bs)
    ensures Filled(Run(g, Boot(d), [Begin(0), Begin(1), Begin(2)]), bs, 0)
  {
    var s0 := Boot(d);
    var s1 := Do(g, s0, Begin(0));
    assert s1.procs == map[0 := InOp(0, MAXOPBLOCKS)] && s1.outstanding == 1;
    var s2 := Do(g, s1, Begin(1));
    assert s2.outstanding == 2;
    var s3 := Do(g, s2, Begin(2));
    assert Run(g, s3, []) == s3;
    assert Run(g, s2, [Begin(2)]) == s3 by { assert [Begin(2)][1..] == []; }
    assert Run(g, s1, [Begin(1), Begin(2)]) == s3 by { assert [Begin(1), Begin(2)][1..] == [Begin(2)]; }
    assert [Begin(0), Begin(1), Begin(2)][1..] == [Begin(1), Begin(2)];
  }

  lemma TwoSteps(g: Geometry, s: State, e: Event, e': Event)
    ensures Run(g, s, [e, e']) == Do(g, Do(g, s, e), e')
  {
    hide Do;
    assert [e, e'][1..] == [e'] && [e'][1..] == [];
    assert Run(g, Do(g, s, e), [e']) == Do(g, Do(g, s, e), e');
  }

  /** After the Check of the t-th block. */
  lemma FillCheck(g: Geometry, s: State, bs: seq<nat>, data: Block, t: nat)
    requires Spread(g, bs) && Filled(s, bs, t) && t < LOGSIZE && t < g.size - 1
    ensures var p := t % 3;
            && p in s.procs && s.procs[p].InOp? && s.procs[p].left >= 1
            && Do(g, s, Check(p, bs[t], data))
               == s.(procs := s.procs[p := Logging(s.procs[p].op, s.procs[p].left, bs[t], data)])
  {
    assert (t + 2 - t % 3) / 3 == t / 3;
  }

  lemma FillOne(g: Geometry, s: State, bs: seq<nat>, data: Block, t: nat)
    requires Spread(g, bs) && Filled(s, bs, t) && t < LOGSIZE && t < g.size - 1
    ensures Filled(Run(g, s, [Check(t % 3, bs[t], data), Record(t % 3)]), bs, t + 1)
  {
    var p := t % 3;
    TwoSteps(g, s, Check(p, bs[t], data), Record(p));
    FillCheck(g, s, bs, data, t);
    hide Run;
    var s1 := s.(procs := s.procs[p := Logging(s.procs[p].op, s.procs[p].left, bs[t], data)]);
    assert bs[t] !in s1.h;
    assert Do(g, s1, Record(p)) == RecordStep(s1, p);
  }

  lemma {:induction false} FillRun(g: Geometry, d: Disk, bs: seq<nat>, data: Block, t: nat)
    requires Spread(g, bs) && t <= LOGSIZE && t <= g.size - 1
    ensures Filled(Run(g, Boot(d), FillEvents(bs, data, t)), bs, t)
  {
    if t == 0 {
      FillStart(g, d, bs);
    } else {
      FillRun(g, d, bs, data, t - 1);
      var pair := [Check((t - 1) % 3, bs[t - 1], data), Record((t - 1) % 3)];
      RunConcat(g, Boot(d), FillEvents(bs, data, t - 1), pair);
      FillOne(g, Run(g, Boot(d), FillEvents(bs, data, t - 1)), bs, data, t - 1);
    }
  }

  lemma RunFour(g: Geometry, s: State, a: Event, b: Event, c: Event, e: Event)
    ensures Run(g, s, [a, b, c, e]) == Do(g, Do(g, Do(g, Do(g, s, a), b), c), e)
  {
    var s1 := Do(g, s, a);
    var s2 := Do(g, s1, b);
    var s3 := Do(g, s2, c);
    assert Run(g, s3, [e]) == Do(g, s3, e) by { assert [e][1..] == []; }
    assert Run(g, s2, [c, e]) == Run(g, s3, [e]) by { assert [c, e][1..] == [e]; }
    assert Run(g, s1, [b, c, e]) == Run(g, s2, [c, e]) by { assert [b, c, e][1..] == [c, e]; }
    assert [a, b, c, e][1..] == [b, c, e];
  }

  /** Both checks happen before either record. */
  lemma RaceSteps(g: Geometry, s: State, bs: seq<nat>, data: Block, t: nat)
    requires Spread(g, bs) && Filled(s, bs, t) && t + 2 <= LOGSIZE && t < g.size - 1
    ensures var p, q := t % 3, (t + 1) % 3;
            var s2 := Do(g, Do(g, s, Check(p, bs[t], data)), Check(q, bs[t + 1], data));
            |Do(g, Do(g, s2, Record(p)), Record(q)).h| == t + 2
  {
    var p, q := t % 3, (t + 1) % 3;
    assert p != q && (t + 2 - p) / 3 == t / 3 && (t + 2 - q) / 3 <= 9;
    var s1 := Do(g, s, Check(p, bs[t], data));
    assert s1.h == s.h && s1.procs[p].Logging? && s1.procs[p].left > 0;
    assert s1.procs[q] == s.procs[q];
    var s2 := Do(g, s1, Check(q, bs[t + 1], data));
    assert s2.h == s.h && s2.procs[p] == s1.procs[p] && s2.procs[q].Logging? && s2.procs[q].left > 0;
    assert bs[t] !in s2.h;
    var s3 := Do(g, s2, Record(p));
    assert s3.h == s.h + [bs[t]] && s3.procs[q] == s2.procs[q];
    assert bs[t + 1] !in s3.h;
  }

  /** Two operations pass the unlocked guard together, and the header outgrows a log of at most LOGSIZE blocks. */
  lemma GuardRace(g: Geometry, d: Disk, bs: seq<nat>, data: Block) returns (es: seq<Event>)
    requires Spread(g, bs) && 2 <= g.size <= LOGSIZE
    ensures |Run(g, Boot(d), es).h| + 1 > g.size
  {
    var t := g.size - 2;
    FillRun(g, d, bs, data, t);
    var fill := FillEvents(bs, data, t);
    var p, q := t % 3, (t + 1) % 3;
    RaceSteps(g, Run(g, Boot(d), fill), bs, data, t);
    var race := [Check(p, bs[t], data), Check(q, bs[t + 1], data), Record(p), Record(q)];
    RunFour(g, Run(g, Boot(d), fill), race[0], race[1], race[2], race[3]);
    es := fill + race;
    RunConcat(g, Boot(d), fill, race);
  }

  /**
   write_log stays inside the log area in every run exactly when the log has more than LOGSIZE
   blocks. mkfs sets nlog = LOGSIZE, one block short.
   */
  lemma LogAreaSufficesIff(g: Geometry, d: Disk, bs: seq<nat>)
    requires g.Valid() && g.size >= 2 && Clean(g, d) && Spread(g, bs)
    ensures (forall es :: |Run(g, Boot(d), es).h| + 1 <= g.size) <==> g.size >= LOGSIZE + 1
  {
    if g.size >= LOGSIZE + 1 {
      forall es ensures |Run(g, Boot(d), es).h| + 1 <= g.size {
        BootInv(g, d);
        RoomyStaysInside(g, Boot(d), es);
        RunKeeps(g, Boot(d), es);
      }
    } else {
      var es := GuardRace(g, d, bs, d[g.start]);
    }
  }

  /** Even with a roomy log, rewriting an already logged block panics once the header is full. */
  lemma AbsorptionCanPanic(g: Geometry, d: Disk, bs: seq<nat>, data: Block) returns (es: seq<Event>)
    requires Roomy(g) && Clean(g, d) && Spread(g, bs)
    ensures Run(g, Boot(d), es).fault == TransactionTooBig
    ensures bs[0] in Run(g, Boot(d), es).h
  {
    FillRun(g, d, bs, data, LOGSIZE);
    var s := Run(g, Boot(d), FillEvents(bs, data, LOGSIZE));
    var again := Check(0, bs[0], data);
    assert Run(g, s, [again]) == Do(g, s, again) by { assert [again][1..] == []; }
    es := FillEvents(bs, data, LOGSIZE) + [again];
    RunConcat(g, Boot(d), FillEvents(bs, data, LOGSIZE), [again]);
    assert s.h[0] == bs[0];
  }
}
