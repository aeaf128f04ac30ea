/** Requesters and settlers of one deployment receipt, interleaved at every file-system call. */
module DeployReceipts {
  import opened Prelude

  /** What a request fixes for good. */
  datatype Identity = Identity(
    correlation: string, target: Option<(string, string)>, artifactSha: string, sourceCommit: Option<string>,
    requestedAt: int)

  datatype Phase = Requested | Succeeded | Failed | RolledBack

  datatype Outcome = Outcome(phase: Phase, completedAt: int, loadedSha: string, healthy: bool, failure: Option<string>)

  datatype Receipt = Receipt(identity: Identity, phase: Phase, outcome: Option<Outcome>)

  datatype Result = Created | Duplicate | Fault

  /** Where a requester stands: about to take the lock, lock found busy, lock held, and so on. */
  datatype RequesterAt = Starting | Busy | Locked | Writing | Unlocking(result: Result) | Returned(result: Result)

  /** A settler reads, may hold the receipt it read, and then replaces the file. */
  datatype SettlerAt = Reading | Holding(receipt: Receipt) | Finished

  datatype Process =
    | Requester(identity: Identity, valid: bool, at: RequesterAt)
    | Settler(outcome: Outcome, stage: SettlerAt)
    | Dead(heldLock: bool)

  /** The receipt file, the lock directory with its maker, the processes, and which requester created the file. */
  datatype World = World(file: Option<Receipt>, lock: Option<nat>, processes: map<nat, Process>, creator: Option<nat>)

  datatype Step =
    | Spawning(pid: nat, process: Process)
    | Advancing(pid: nat)
    | WriteFailing(pid: nat)
    | Crashing(pid: nat)

  predicate IsNew(p: Process) {
    match p
    case Requester(_, _, at) => at == Starting
    case Settler(o, stage) => stage == Reading && o.phase != Requested
    case Dead(_) => false
  }

  predicate HoldsLock(p: Process) {
    (p.Requester? && (p.at.Locked? || p.at.Writing? || p.at.Unlocking?)) || (p.Dead? && p.heldLock)
  }

  function Settled(r: Receipt, o: Outcome): Receipt { Receipt(r.identity, o.phase, Some(o)) }

  /** One file-system call of a requester. */
  function AdvanceRequester(w: World, pid: nat, p: Process): World
    requires p.Requester?
  {
    var to := (at: RequesterAt) => w.processes[pid := p.(at := at)];
    match p.at
    case Starting =>
      if !p.valid then w.(processes := to(Returned(Fault)))
      else if w.lock.Some? then w.(processes := to(Busy))
      else w.(lock := Some(pid), processes := to(Locked))
    case Busy => w.(processes := to(Returned(if w.file.Some? then Duplicate else Fault)))
    case Locked => w.(processes := to(if w.file.Some? then Unlocking(Duplicate) else Writing))
    case Writing =>
      w.(file := Some(Receipt(p.identity, Requested, None)), creator := Some(pid), processes := to(Unlocking(Created)))
    case Unlocking(result) => w.(lock := None, processes := to(Returned(result)))
    case Returned(_) => w
  }

  /** One file-system call of a settler. */
  function AdvanceSettler(w: World, pid: nat, p: Process): World
    requires p.Settler?
  {
    match p.stage
    case Reading =>
      var next := if w.file.Some? && w.file.value.phase == Requested then Holding(w.file.value) else Finished;
      w.(processes := w.processes[pid := p.(stage := next)])
    case Holding(r) => w.(file := Some(Settled(r, p.outcome)), processes := w.processes[pid := p.(stage := Finished)])
    case Finished => w
  }

  function Next(w: World, s: Step): World {
    match s
    case Spawning(pid, p) => if pid !in w.processes && IsNew(p) then w.(processes := w.processes[pid := p]) else w
    case Advancing(pid) =>
      if pid !in w.processes then w
      else
        (match w.processes[pid]
         case Requester(_, _, _) => AdvanceRequester(w, pid, w.processes[pid])
         case Settler(_, _) => AdvanceSettler(w, pid, w.processes[pid])
         case Dead(_) => w)
    case WriteFailing(pid) =>
      if pid in w.processes && w.processes[pid].Requester? && w.processes[pid].at.Writing? then
        w.(processes := w.processes[pid := w.processes[pid].(at := Unlocking(Fault))])
      else w
    case Crashing(pid) =>
      if pid in w.processes then w.(processes := w.processes[pid := Dead(HoldsLock(w.processes[pid]))]) else w
  }

  function Run(w: World, steps: seq<Step>): World
    decreases |steps|
  {
    if steps == [] then w else Run(Next(w, steps[0]), steps[1..])
  }

  predicate SaysCreated(p: Process) { p.Requester? && (p.at == Unlocking(Created) || p.at == Returned(Created)) }

  predicate SaysDuplicate(p: Process) { p.Requester? && (p.at == Unlocking(Duplicate) || p.at == Returned(Duplicate)) }

  /** What holds of one process in a world. */
  ghost predicate Fits(w: World, a: nat, p: Process) {
    // the lock directory exists exactly while its maker holds it
    && (HoldsLock(p) <==> w.lock == Some(a))
    // a requester that is about to write has seen no file, and nobody can have made one since
    && (p.Requester? && p.at.Writing? ==> w.file.None?)
    // only the creator reports success, and the file carries its request
    && (SaysCreated(p) ==> w.creator == Some(a) && w.file.Some? && w.file.value.identity == p.identity)
    // a requester that reports a duplicate has seen a receipt
    && (SaysDuplicate(p) ==> w.file.Some?)
    // a settler holds a requested copy of the receipt that is still on file
    && (p.Settler? ==> p.outcome.phase != Requested)
    && (p.Settler? && p.stage.Holding? ==>
        w.file.Some? && p.stage.receipt.identity == w.file.value.identity && p.stage.receipt.phase == Requested)
  }

  ghost predicate Valid(w: World) {
    && (w.lock.Some? ==> w.lock.value in w.processes)
    && (w.creator.Some? ==> w.file.Some?)
    && forall a | a in w.processes :: Fits(w, a, w.processes[a])
  }

  /** A receipt path with nobody at work on it yet. */
  predicate Quiet(w: World) { w.lock.None? && w.processes == map[] && w.creator.None? }

  lemma {:induction false} AdvanceRequesterKeepsValid(w: World, pid: nat)
    requires Valid(w) && pid in w.processes && w.processes[pid].Requester?
    ensures Valid(AdvanceRequester(w, pid, w.processes[pid]))
  {
    var n := AdvanceRequester(w, pid, w.processes[pid]);
    assert Fits(w, pid, w.processes[pid]);
    forall a | a in n.processes ensures Fits(n, a, n.processes[a]) {
      if a != pid { assert n.processes[a] == w.processes[a] && Fits(w, a, w.processes[a]); }
    }
  }

  lemma {:induction false} AdvanceSettlerKeepsValid(w: World, pid: nat)
    requires Valid(w) && pid in w.processes && w.processes[pid].Settler?
    ensures Valid(AdvanceSettler(w, pid, w.processes[pid]))
  {
    var n := AdvanceSettler(w, pid, w.processes[pid]);
    assert Fits(w, pid, w.processes[pid]);
    forall a | a in n.processes ensures Fits(n, a, n.processes[a]) {
      if a != pid { assert n.processes[a] == w.processes[a] && Fits(w, a, w.processes[a]); }
    }
  }

  lemma {:induction false} ReplaceKeepsValid(w: World, pid: nat, p: Process)
    requires Valid(w) && !SaysCreated(p) && !SaysDuplicate(p) && !(p.Requester? && p.at.Writing?)
    requires p.Settler? ==> p.outcome.phase != Requested && !p.stage.Holding?
    requires HoldsLock(p) <==> pid in w.processes && HoldsLock(w.processes[pid])
    ensures Valid(w.(processes := w.processes[pid := p]))
  {
    var n := w.(processes := w.processes[pid := p]);
    forall a | a in n.processes ensures Fits(n, a, n.processes[a]) {
      if a in w.processes { assert Fits(w, a, w.processes[a]); }
    }
  }

  lemma {:induction false} StepKeepsValid(w: World, s: Step)
    requires Valid(w)
    ensures Valid(Next(w, s))
  {
    match s
    case Spawning(pid, p) => if pid !in w.processes && IsNew(p) { ReplaceKeepsValid(w, pid, p); }
    case Advancing(pid) =>
      if pid in w.processes {
        match w.processes[pid]
        case Requester(_, _, _) => AdvanceRequesterKeepsValid(w, pid);
        case Settler(_, _) => AdvanceSettlerKeepsValid(w, pid);
        case Dead(_) =>
      }
    case WriteFailing(pid) =>
      if pid in w.processes && w.processes[pid].Requester? && w.processes[pid].at.Writing? {
        ReplaceKeepsValid(w, pid, w.processes[pid].(at := Unlocking(Fault)));
      }
    case Crashing(pid) =>
      if pid in w.processes { ReplaceKeepsValid(w, pid, Dead(HoldsLock(w.processes[pid]))); }
  }

  lemma {:induction false} RunKeepsValid(w: World, steps: seq<Step>)
    requires Valid(w)
    ensures Valid(Run(w, steps))
    decreases |steps|
  {
    if steps != [] {
      StepKeepsValid(w, steps[0]);
      RunKeepsValid(Next(w, steps[0]), steps[1..]);
    }
  }

  lemma {:induction false} StepKeepsReceipt(w: World, s: Step)
    requires Valid(w) && w.file.Some?
    ensures Next(w, s).file.Some? && Next(w, s).file.value.identity == w.file.value.identity
    ensures w.file.value.phase != Requested ==> Next(w, s).file.value.phase != Requested
    ensures Next(w, s).creator == w.creator
  {
  }

  /** Once there is a receipt, its request never changes, its phase never goes back, and nobody becomes its creator. */
  lemma {:induction false} ReceiptKeepsItsRequest(w: World, steps: seq<Step>)
    requires Valid(w) && w.file.Some?
    ensures Run(w, steps).file.Some? && Run(w, steps).file.value.identity == w.file.value.identity
    ensures w.file.value.phase != Requested ==> Run(w, steps).file.value.phase != Requested
    ensures Run(w, steps).creator == w.creator
    decreases |steps|
  {
    if steps != [] {
      StepKeepsReceipt(w, steps[0]);
      StepKeepsValid(w, steps[0]);
      ReceiptKeepsItsRequest(Next(w, steps[0]), steps[1..]);
    }
  }

  /**
   * Over any interleaving of any number of requesters and settlers, crashes included, at most one requester reports
   * that it created the receipt, and none does when a receipt was there from the start.
   */
  lemma {:induction false} AtMostOneRequestIsCreated(w: World, steps: seq<Step>, a: nat, b: nat)
    requires Quiet(w)
    ensures var end := Run(w, steps).processes;
            a in end && b in end && SaysCreated(end[a]) && SaysCreated(end[b]) ==> a == b && w.file.None?
  {
    RunKeepsValid(w, steps);
    if w.file.Some? { ReceiptKeepsItsRequest(w, steps); }
  }

  /** A refused duplicate always has its receipt on file, and a reported creation is the request on file. */
  lemma {:induction false} ReportsMatchTheFile(w: World, steps: seq<Step>, a: nat)
    requires Quiet(w)
    ensures var end := Run(w, steps);
            a in end.processes ==>
              && (SaysDuplicate(end.processes[a]) ==> end.file.Some?)
              && (SaysCreated(end.processes[a]) ==>
                  end.file.Some? && end.file.value.identity == end.processes[a].identity)
  {
    RunKeepsValid(w, steps);
    assert a in Run(w, steps).processes ==> Fits(Run(w, steps), a, Run(w, steps).processes[a]);
  }

  // ---- Every request and every settlement is answered ----

  /** The most steps of its own a process can still take. */
  function Remaining(p: Process): nat {
    match p
    case Requester(_, _, at) =>
      (match at
       case Starting => 4
       case Locked => 3
       case Writing => 2
       case Busy => 1
       case Unlocking(_) => 1
       case Returned(_) => 0)
    case Settler(_, stage) => if stage.Reading? then 2 else if stage.Holding? then 1 else 0
    case Dead(_) => 0
  }

  /** How many steps of its own a run lets a process take. */
  function Turns(steps: seq<Step>, a: nat): nat
    decreases |steps|
  {
    if steps == [] then 0 else (if steps[0] == Advancing(a) then 1 else 0) + Turns(steps[1..], a)
  }

  lemma {:induction false} StepsComeCloser(w: World, s: Step, a: nat)
    requires a in w.processes
    ensures a in Next(w, s).processes && Remaining(Next(w, s).processes[a]) <= Remaining(w.processes[a])
    ensures s == Advancing(a) && Remaining(w.processes[a]) > 0 ==>
            Remaining(Next(w, s).processes[a]) < Remaining(w.processes[a])
  {
  }

  /**
   * Whatever the others do, a requester has its answer after four steps of its own, and a settler is done after two.
   */
  lemma {:induction false} EveryProcessFinishes(w: World, steps: seq<Step>, a: nat)
    requires a in w.processes
    ensures a in Run(w, steps).processes
    ensures Remaining(Run(w, steps).processes[a]) <= Max(0, Remaining(w.processes[a]) - Turns(steps, a))
    decreases |steps|
  {
    if steps != [] {
      StepsComeCloser(w, steps[0], a);
      EveryProcessFinishes(Next(w, steps[0]), steps[1..], a);
    }
  }

  /** A request that has yet to look, or has found the receipt that is there. */
  predicate WillSayDuplicate(p: Process) {
    p.Dead? || (p.Requester? && p.valid
                && (p.at.Starting? || p.at.Busy? || p.at.Locked?
                    || p.at == Unlocking(Duplicate) || p.at == Returned(Duplicate)))
  }

  /** With a receipt on file, a valid request that has yet to look is told that it is a duplicate, in every run. */
  lemma {:induction false} ReceiptOnFileRefusesRequests(w: World, steps: seq<Step>, a: nat)
    requires Valid(w) && w.file.Some? && a in w.processes && WillSayDuplicate(w.processes[a])
    ensures a in Run(w, steps).processes && WillSayDuplicate(Run(w, steps).processes[a])
    decreases |steps|
  {
    if steps != [] {
      StepKeepsReceipt(w, steps[0]);
      StepKeepsValid(w, steps[0]);
      ReceiptOnFileRefusesRequests(Next(w, steps[0]), steps[1..], a);
    }
  }

  /** An invalid request, or one that finds the lock taken and no receipt, fails without touching file or lock. */
  lemma {:induction false} RequestFailsWithoutATrace(w: World, a: nat)
    requires a in w.processes && w.processes[a].Requester?
    requires (w.processes[a].at.Starting? && !w.processes[a].valid) || (w.processes[a].at.Busy? && w.file.None?)
    ensures var n := Next(w, Advancing(a));
            n.processes[a].Requester? && n.processes[a].at == Returned(Fault) && n.file == w.file && n.lock == w.lock
  {
  }

  /** A valid request that finds lock and path free creates the receipt, says so and frees the lock. */
  lemma {:induction false} RequestCreates(w: World, a: nat)
    requires a in w.processes && w.processes[a].Requester? && w.processes[a].valid && w.processes[a].at.Starting?
    requires w.file.None? && w.lock.None?
    ensures var written := Next(Next(Next(w, Advancing(a)), Advancing(a)), Advancing(a));
            var end := Next(written, Advancing(a));
            && written.lock == Some(a) && end.lock.None? && end.creator == Some(a)
            && end.file == Some(Receipt(w.processes[a].identity, Requested, None))
            && end.processes == w.processes[a := w.processes[a].(at := Returned(Created))]
  {
  }

  /** A write that fails leaves no file; the requester frees the lock and reports the fault. */
  lemma {:induction false} FailedWriteIsReported(w: World, a: nat)
    requires a in w.processes && w.processes[a].Requester? && w.processes[a].at.Writing?
    ensures var end := Next(Next(w, WriteFailing(a)), Advancing(a));
            && end.file == w.file && end.creator == w.creator && end.lock.None?
            && end.processes == w.processes[a := w.processes[a].(at := Returned(Fault))]
  {
  }

  /** Settling a requested receipt files the outcome; with none, or a settled one, it changes nothing on file. */
  lemma {:induction false} SettlingTakesEffect(w: World, a: nat)
    requires a in w.processes && w.processes[a].Settler? && w.processes[a].stage.Reading?
    ensures var o, end := w.processes[a].outcome, Next(Next(w, Advancing(a)), Advancing(a));
            && end.lock == w.lock && end.creator == w.creator
            && end.processes == w.processes[a := w.processes[a].(stage := Finished)]
            && end.file == if w.file.Some? && w.file.value.phase == Requested
                           then Some(Receipt(w.file.value.identity, o.phase, Some(o))) else w.file
  {
  }

  // ---- Where what is on file comes from ----

  ghost predicate Requests(steps: seq<Step>, id: Identity) {
    exists i | 0 <= i < |steps| ::
      && steps[i].Spawning? && steps[i].process.Requester?
      && steps[i].process.valid && steps[i].process.identity == id
  }

  ghost predicate Settles(steps: seq<Step>, o: Outcome) {
    && o.phase != Requested
    && exists i | 0 <= i < |steps| ::
         steps[i].Spawning? && steps[i].process.Settler? && steps[i].process.outcome == o
  }

  /** A receipt that waits for its outcome: the one on file at the start, or that of a valid request of the run. */
  ghost predicate Asked(start: Option<Receipt>, steps: seq<Step>, r: Receipt) {
    && r.phase == Requested
    && (start == Some(r) || (r.outcome.None? && Requests(steps, r.identity)))
  }

  /** A receipt with the phase and outcome of a settler of the run, and the identity of one that waited. */
  ghost predicate Filed(start: Option<Receipt>, steps: seq<Step>, r: Receipt) {
    && r.outcome.Some? && r.phase == r.outcome.value.phase && Settles(steps, r.outcome.value)
    && exists asked: Receipt :: Asked(start, steps, asked) && asked.identity == r.identity
  }

  ghost predicate Explained(start: Option<Receipt>, steps: seq<Step>, r: Receipt) {
    start == Some(r) || Asked(start, steps, r) || Filed(start, steps, r)
  }

  /** What a process holds was given to it when it was spawned, or read from the file. */
  ghost predicate Comes(start: Option<Receipt>, steps: seq<Step>, p: Process) {
    match p
    case Requester(id, valid, at) => (valid ==> Requests(steps, id)) && (at.Writing? || at.Locked? ==> valid)
    case Settler(o, stage) => Settles(steps, o) && (stage.Holding? ==> Asked(start, steps, stage.receipt))
    case Dead(_) => true
  }

  ghost predicate Accounted(start: Option<Receipt>, steps: seq<Step>, w: World) {
    && (w.file.Some? ==> Explained(start, steps, w.file.value))
    && forall a | a in w.processes :: Comes(start, steps, w.processes[a])
  }

  lemma {:induction false} MoreStepsExplain(start: Option<Receipt>, steps: seq<Step>, s: Step, r: Receipt)
    ensures Asked(start, steps, r) ==> Asked(start, steps + [s], r)
    ensures Explained(start, steps, r) ==> Explained(start, steps + [s], r)
  {
    if Requests(steps, r.identity) { MoreStepsRequest(steps, s, r.identity); }
    if Filed(start, steps, r) {
      MoreStepsSettle(steps, s, r.outcome.value);
      var asked: Receipt :| Asked(start, steps, asked) && asked.identity == r.identity;
      if Requests(steps, asked.identity) { MoreStepsRequest(steps, s, asked.identity); }
      assert Asked(start, steps + [s], asked);
    }
  }

  lemma {:induction false} MoreStepsRequest(steps: seq<Step>, s: Step, id: Identity)
    requires Requests(steps, id)
    ensures Requests(steps + [s], id)
  {
    var i :| 0 <= i < |steps| && steps[i].Spawning? && steps[i].process.Requester?
             && steps[i].process.valid && steps[i].process.identity == id;
    assert (steps + [s])[i] == steps[i];
  }

  lemma {:induction false} MoreStepsSettle(steps: seq<Step>, s: Step, o: Outcome)
    requires Settles(steps, o)
    ensures Settles(steps + [s], o)
  {
    var i :| 0 <= i < |steps| && steps[i].Spawning? && steps[i].process.Settler? && steps[i].process.outcome == o;
    assert (steps + [s])[i] == steps[i];
  }

  lemma {:induction false} MoreStepsCome(start: Option<Receipt>, steps: seq<Step>, s: Step, p: Process)
    requires Comes(start, steps, p)
    ensures Comes(start, steps + [s], p)
  {
    match p
    case Requester(id, valid, _) => if valid { MoreStepsRequest(steps, s, id); }
    case Settler(o, stage) =>
      MoreStepsSettle(steps, s, o);
      if stage.Holding? { MoreStepsExplain(start, steps, s, stage.receipt); }
    case Dead(_) =>
  }

  lemma {:induction false} MoreStepsAccount(start: Option<Receipt>, steps: seq<Step>, s: Step, w: World)
    requires Accounted(start, steps, w)
    ensures Accounted(start, steps + [s], w)
  {
    if w.file.Some? { MoreStepsExplain(start, steps, s, w.file.value); }
    forall a | a in w.processes ensures Comes(start, steps + [s], w.processes[a]) {
      MoreStepsCome(start, steps, s, w.processes[a]);
    }
  }

  lemma {:induction false} SpawnedComes(start: Option<Receipt>, steps: seq<Step>, pid: nat, p: Process)
    requires IsNew(p)
    ensures Comes(start, steps + [Spawning(pid, p)], p)
  {
    assert (steps + [Spawning(pid, p)])[|steps|] == Spawning(pid, p);
  }

  /** A requested receipt on file is one that was asked for. */
  lemma {:induction false} RequestedWasAsked(start: Option<Receipt>, steps: seq<Step>, r: Receipt)
    requires Explained(start, steps, r) && r.phase == Requested
    ensures Asked(start, steps, r)
  {
  }

  lemma {:induction false} AdvanceAccounts(start: Option<Receipt>, steps: seq<Step>, w: World, pid: nat)
    requires Accounted(start, steps, w) && pid in w.processes
    ensures Accounted(start, steps, Next(w, Advancing(pid)))
  {
    var n, p := Next(w, Advancing(pid)), w.processes[pid];
    assert Comes(start, steps, p);
    if w.file.Some? && w.file.value.phase == Requested { RequestedWasAsked(start, steps, w.file.value); }
    forall a | a in n.processes ensures Comes(start, steps, n.processes[a]) {
      if a != pid { assert n.processes[a] == w.processes[a]; }
    }
    if p.Requester? && p.at.Writing? {
      assert n.file == Some(Receipt(p.identity, Requested, None));
      assert Asked(start, steps, n.file.value);
    }
    if p.Settler? && p.stage.Holding? {
      SettlerWritesItsOutcome(w, pid);
      assert Asked(start, steps, p.stage.receipt);
      assert Filed(start, steps, n.file.value);
    }
  }

  lemma {:induction false} StepAccounts(start: Option<Receipt>, steps: seq<Step>, w: World, s: Step)
    requires Accounted(start, steps, w)
    ensures Accounted(start, steps + [s], Next(w, s))
  {
    MoreStepsAccount(start, steps, s, w);
    match s
    case Spawning(pid, p) => if IsNew(p) { SpawnedComes(start, steps, pid, p); }
    case Advancing(pid) => if pid in w.processes { AdvanceAccounts(start, steps + [s], w, pid); }
    case WriteFailing(_) =>
    case Crashing(_) =>
  }

  lemma {:induction false} RunAccounts(start: Option<Receipt>, done: seq<Step>, w: World, steps: seq<Step>)
    requires Accounted(start, done, w)
    ensures Accounted(start, done + steps, Run(w, steps))
    decreases |steps|
  {
    if steps == [] {
      assert done + steps == done;
    } else {
      StepAccounts(start, done, w, steps[0]);
      RunAccounts(start, done + [steps[0]], Next(w, steps[0]), steps[1..]);
      assert done + [steps[0]] + steps[1..] == done + steps;
    }
  }

  /** A settler that holds a receipt files it with its own phase and outcome, under the receipt's identity. */
  lemma {:induction false} SettlerWritesItsOutcome(w: World, a: nat)
    requires a in w.processes && w.processes[a].Settler? && w.processes[a].stage.Holding?
    ensures var o, held := w.processes[a].outcome, w.processes[a].stage.receipt;
            Next(w, Advancing(a)).file == Some(Receipt(held.identity, o.phase, Some(o)))
  {
  }

  /**
   * Over every run, a receipt on file is the one that was there at the start, or that of a valid request of the run
   * waiting for its outcome, or it has the phase and outcome of one settler of the run and the identity of a receipt
   * that waited.
   */
  lemma {:induction false} FiledReceiptIsExplained(w: World, steps: seq<Step>)
    requires Quiet(w)
    ensures Run(w, steps).file.Some? ==> Explained(w.file, steps, Run(w, steps).file.value)
  {
    RunAccounts(w.file, [], w, steps);
    assert [] + steps == steps;
  }

  // ---- What a crash leaves behind ----

  /** The maker of the lock directory is dead, and there is no receipt. */
  ghost predicate Stuck(w: World) {
    && w.file.None? && w.lock.Some? && w.lock.value in w.processes && w.processes[w.lock.value] == Dead(true)
  }

  lemma {:induction false} StepStaysStuck(w: World, s: Step)
    requires Valid(w) && Stuck(w)
    ensures Stuck(Next(w, s))
  {
    if s.Advancing? && s.pid in w.processes { assert Fits(w, s.pid, w.processes[s.pid]); }
  }

  /**
   * Once a lock holder has crashed before writing, no receipt ever appears at that path and no requester, then or
   * later, reports creation or a duplicate: every request fails.
   */
  lemma {:induction false} CrashedHolderBlocksForEver(w: World, steps: seq<Step>, a: nat)
    requires Valid(w) && Stuck(w)
    ensures Stuck(Run(w, steps)) && Run(w, steps).file.None?
    ensures a in Run(w, steps).processes ==>
            !SaysCreated(Run(w, steps).processes[a]) && !SaysDuplicate(Run(w, steps).processes[a])
    decreases |steps|
  {
    if steps == [] {
      if a in w.processes { assert Fits(w, a, w.processes[a]); }
    } else {
      StepStaysStuck(w, steps[0]);
      StepKeepsValid(w, steps[0]);
      CrashedHolderBlocksForEver(Next(w, steps[0]), steps[1..], a);
    }
  }

  /** It does happen: a requester takes the lock and crashes. */
  lemma {:induction false} CrashCanBlock(request: Identity)
    ensures var w := World(None, None, map[], None);
            && Quiet(w) && Valid(w)
            && Stuck(Run(w, [Spawning(1, Requester(request, true, Starting)), Advancing(1), Crashing(1)]))
  {
    var w := World(None, None, map[], None);
    var a, b, c := Spawning(1, Requester(request, true, Starting)), Advancing(1), Crashing(1);
    assert [a, b, c] == [a] + ([b] + ([c] + []));
    RunOne(w, a, [b] + ([c] + []));
    var w1 := Next(w, a);
    RunOne(w1, b, [c] + []);
    var w2 := Next(w1, b);
    RunOne(w2, c, []);
  }

  ghost predicate Appears(w: World, steps: seq<Step>) { Run(w, steps).file.Some? }

  ghost predicate CanAppear(w: World) { exists steps: seq<Step> :: Appears(w, steps) }

  lemma {:induction false} AppearsEarlier(w: World, s: Step)
    requires CanAppear(Next(w, s))
    ensures CanAppear(w)
  {
    var steps :| Appears(Next(w, s), steps);
    RunOne(w, s, steps);
    assert Appears(w, [s] + steps);
  }

  lemma {:induction false} AppearsNow(w: World)
    requires w.file.Some?
    ensures CanAppear(w)
  {
    assert Appears(w, []);
  }

  /** Some process id is above all those in use. */
  lemma {:induction false} UnusedAbove(used: set<nat>) returns (n: nat)
    ensures forall x | x in used :: x < n
    decreases used
  {
    if used == {} {
      n := 0;
    } else {
      var x :| x in used;
      var m := UnusedAbove(used - {x});
      n := if m <= x then x + 1 else m;
      forall y | y in used ensures y < n { assert y == x || y in used - {x}; }
    }
  }

  /** A requester that holds the lock and finds no file writes one. */
  lemma {:induction false} HolderWrites(w: World, h: nat)
    requires w.file.None? && h in w.processes && w.processes[h].Requester?
    requires w.processes[h].at.Locked? || w.processes[h].at.Writing?
    ensures CanAppear(w)
  {
    var n := Next(w, Advancing(h));
    if w.processes[h].at.Locked? {
      AppearsNow(Next(n, Advancing(h)));
      AppearsEarlier(n, Advancing(h));
    } else {
      AppearsNow(n);
    }
    AppearsEarlier(w, Advancing(h));
  }

  /** With the lock free, a new requester takes it and writes. */
  lemma {:induction false} FreeLockAppears(w: World, request: Identity)
    requires w.file.None? && w.lock.None?
    ensures CanAppear(w)
  {
    var pid := UnusedAbove(w.processes.Keys);
    var p := Requester(request, true, Starting);
    var spawned := Next(w, Spawning(pid, p));
    assert pid !in w.processes && spawned.processes[pid] == p;
    HolderWrites(Next(spawned, Advancing(pid)), pid);
    AppearsEarlier(spawned, Advancing(pid));
    AppearsEarlier(w, Spawning(pid, p));
  }

  /** A receipt can still appear at a path exactly when no dead requester holds its lock. */
  lemma {:induction false} ReceiptCanAppearExactlyWhen(w: World, request: Identity)
    requires Valid(w)
    ensures CanAppear(w) <==> !Stuck(w)
  {
    if Stuck(w) {
      forall steps: seq<Step> ensures !Appears(w, steps) { CrashedHolderBlocksForEver(w, steps, 0); }
    } else if w.file.Some? {
      AppearsNow(w);
    } else if w.lock.None? {
      FreeLockAppears(w, request);
    } else {
      var h := w.lock.value;
      assert Fits(w, h, w.processes[h]);
      if w.processes[h].at.Unlocking? {
        FreeLockAppears(Next(w, Advancing(h)), request);
        AppearsEarlier(w, Advancing(h));
      } else {
        HolderWrites(w, h);
      }
    }
  }

  // ---- Whether a settled receipt is final ----

  /** Some settler still holds the requested copy and would write something other than what is on file. */
  ghost predicate Overwritable(w: World) {
    exists a | a in w.processes && w.processes[a].Settler? && w.processes[a].stage.Holding? ::
      Some(Settled(w.processes[a].stage.receipt, w.processes[a].outcome)) != w.file
  }

  ghost predicate IsSettled(w: World) { w.file.Some? && w.file.value.phase != Requested }

  ghost predicate Changes(w: World, steps: seq<Step>) { Run(w, steps).file != w.file }

  lemma {:induction false} StepKeepsFinal(w: World, s: Step)
    requires Valid(w) && IsSettled(w) && !Overwritable(w)
    ensures Next(w, s).file == w.file && !Overwritable(Next(w, s))
  {
    var n := Next(w, s);
    forall a | a in n.processes && n.processes[a].Settler? && n.processes[a].stage.Holding?
      ensures Some(Settled(n.processes[a].stage.receipt, n.processes[a].outcome)) == n.file
    {
      assert a in w.processes && n.processes[a] == w.processes[a];
    }
  }

  lemma {:induction false} FinalStaysFinal(w: World, steps: seq<Step>)
    requires Valid(w) && IsSettled(w) && !Overwritable(w)
    ensures Run(w, steps).file == w.file
    decreases |steps|
  {
    if steps != [] {
      StepKeepsFinal(w, steps[0]);
      StepKeepsValid(w, steps[0]);
      FinalStaysFinal(Next(w, steps[0]), steps[1..]);
    }
  }

  /** A settled receipt can still change exactly while another settler that read it earlier has yet to write. */
  lemma {:induction false} SettledChangesExactlyWhen(w: World)
    requires Valid(w) && IsSettled(w)
    ensures (exists steps: seq<Step> :: Changes(w, steps)) <==> Overwritable(w)
  {
    if !Overwritable(w) {
      forall steps: seq<Step> ensures !Changes(w, steps) { FinalStaysFinal(w, steps); }
    }
    if Overwritable(w) {
      var a :| a in w.processes && w.processes[a].Settler? && w.processes[a].stage.Holding?
               && Some(Settled(w.processes[a].stage.receipt, w.processes[a].outcome)) != w.file;
      var steps := [Advancing(a)];
      assert steps[1..] == [] && Run(w, steps) == Run(Next(w, Advancing(a)), []) == Next(w, Advancing(a));
      assert Changes(w, steps);
    }
  }

  lemma {:induction false} RunOne(w: World, s: Step, rest: seq<Step>)
    ensures Run(w, [s] + rest) == Run(Next(w, s), rest)
  {
    assert ([s] + rest)[1..] == rest;
  }

  /** It does happen: two settlers read the same requested receipt, and the second turns a success into a failure. */
  lemma {:induction false} SecondSettlerOverwrites(r: Receipt, good: Outcome, bad: Outcome)
    requires r.phase == Requested && good.phase == Succeeded && bad.phase == Failed
    ensures var w := World(Some(r), None, map[], None);
            var one := [Spawning(1, Settler(good, Reading)), Spawning(2, Settler(bad, Reading)),
                       Advancing(1), Advancing(2), Advancing(1)];
            && Quiet(w)
            && Run(w, one).file == Some(Receipt(r.identity, Succeeded, Some(good)))
            && Run(Run(w, one), [Advancing(2)]).file == Some(Receipt(r.identity, Failed, Some(bad)))
  {
    var w := World(Some(r), None, map[], None);
    var a, b, x, y := Spawning(1, Settler(good, Reading)), Spawning(2, Settler(bad, Reading)),
               Advancing(1), Advancing(2);
    assert [a, b, x, y, x] == [a] + ([b] + ([x] + ([y] + ([x] + []))));
    RunOne(w, a, [b] + ([x] + ([y] + ([x] + []))));
    var w1 := Next(w, a);
    RunOne(w1, b, [x] + ([y] + ([x] + [])));
    var w2 := Next(w1, b);
    RunOne(w2, x, [y] + ([x] + []));
    var w3 := Next(w2, x);
    RunOne(w3, y, [x] + []);
    var w4 := Next(w3, y);
    RunOne(w4, x, []);
    var w5 := Next(w4, x);
    RunOne(w5, y, []);
    assert [y] + [] == [y];
  }
}
