/** The status record of a MigratableApp and the writes the operator makes to it
    (api/v1alpha1/migratableapp_types.go, pkg/controller/migration_fsm.go).

    `Enabled` says when the operator may issue a write against a given status, `Apply` what
    the write stores. Together they are the atomic migration machine; the reconciler that
    reads stale copies is the module `Reconciling`. */
module MigrationStatus {
  import opened Options
  import opened Text

  /** The empty string of the source is `Idle`. */
  datatype Stage =
    | Idle
    | PreCheckpointing
    | Quiescing
    | Dumping
    | Uploaded
    | Restoring
    | RestoreFailed
    | FinalDumpFailed
    | Failed

  datatype Phase = Unset | Pending | Running | Migrating | PhaseFailed

  /** Nanoseconds, as in Go's time.Duration; one reading per reconcile. */
  type Time = int

  const SECOND: Time := 1_000_000_000
  const DEFAULT_MAX_RETRIES := 3
  const PAGE_SERVER_PORT := 9999

  datatype MigrationInfo = MigrationInfo(
    stage: Stage,
    retryCount: int,
    maxRetries: int,
    lastError: string,
    lastTransition: Time,
    dumpId: string,
    s3Prefix: string,
    pipeInodes: map<string, string>,
    previousNode: string,
    targetPod: string,
    reason: string,
    pageServerAddr: string,
    pageServerPort: int)

  const ZERO_INFO := MigrationInfo(Idle, 0, 0, "", 0, "", "", map[], "", "", "", "", 0)

  /** The arguments of the message a history record carries; the text is not rendered. */
  datatype Message =
    | Completed(elapsed: Time, retries: int)
    | DumpError(err: string)
    | Exhausted(retries: int, err: string)

  datatype Record = Record(
    fromNode: string,
    toNode: string,
    timestamp: Time,
    reason: string,
    success: bool,
    message: Message)

  datatype CheckpointInfo = CheckpointInfo(lastId: string, lastTime: Time, chainDepth: int, chainRoot: string)

  datatype Status = Status(
    phase: Phase,
    generation: int,
    currentNode: string,
    currentPod: string,
    history: seq<Record>,
    checkpoint: CheckpointInfo,
    migration: MigrationInfo,
    lastUpdate: Time)

  const INITIAL_STATUS := Status(Unset, 0, "", "", [], CheckpointInfo("", 0, 0, ""), ZERO_INFO, 0)

  /** What stays fixed for a run: the app's name and its webhook-managed label. */
  datatype Config = Config(app: string, webhookManaged: bool)

  /** The part of the FinalDump response the operator keeps. */
  datatype Dump = Dump(id: string, pipeInodes: map<string, string>)

  /** Every kind of write to the object, with the data that came from outside the status. */
  datatype Write =
    | Start(node: string, why: string, quiesce: bool)
    | Latch(pods: nat, budget: Time)
    | BeginDump
    | DumpDone(call: nat, dump: Dump, node: string, dialBack: Option<string>)
    | DumpFailed(failedCall: Option<nat>, err: string)
    | TargetUp(call: nat, pod: string)
    | RestoreBroke(err: string)
    | Restored(call: nat, node: string, pod: string)
    | Retry
    | GiveUp
    | Reset
    | InitialPod(pod: string)
    | Recreate(pod: string)
    | Refresh(placed: Option<(string, string)>, phase: Option<Phase>)
    | WebhookRefresh(node: string, pod: string)
    | Checkpointed(id: string, newChain: bool)
    | CheckpointReapplied(id: string)
    | Metadata

  predicate IsTerminal(stage: Stage) {
    stage == FinalDumpFailed || stage == Failed
  }

  /** A migration was started and has no history record yet. */
  predicate InFlight(stage: Stage) {
    stage in {Quiescing, Dumping, Uploaded, Restoring, RestoreFailed}
  }

  function PhaseForStage(stage: Stage): Phase {
    match stage
    case Idle => Running
    case PreCheckpointing => Running
    case FinalDumpFailed => PhaseFailed
    case Failed => PhaseFailed
    case _ => Migrating
  }

  function Backoff(retryCount: int): Time {
    if retryCount <= 0 then 0 else if retryCount == 1 then 2 * SECOND else 5 * SECOND
  }

  /** The status setStage writes: `m` is the record after the caller's mutation. */
  function AtStage(s: Status, stage: Stage, m: MigrationInfo, now: Time): Status {
    var budget := if m.maxRetries == 0 then DEFAULT_MAX_RETRIES else m.maxRetries;
    s.(migration := m.(stage := stage, lastTransition := now, maxRetries := budget),
       phase := PhaseForStage(stage),
       lastUpdate := now)
  }

  function Prefix(app: string, generation: int, node: string, dump: string): string {
    app + "/" + DecimalInt(generation) + "/" + node + "/" + dump
  }

  predicate Enabled(cfg: Config, s: Status, w: Write, now: Time) {
    var m := s.migration;
    match w
    case Start(_, _, _) => m.stage == Idle
    case Latch(pods, budget) =>
      m.stage == Quiescing && m.lastError == "" && pods > 0 && now - m.lastTransition < budget
    case BeginDump => m.stage == Quiescing
    case DumpDone(_, _, _, _) => m.stage == Dumping
    case DumpFailed(_, _) => m.stage == Dumping
    case TargetUp(_, _) => m.stage == Uploaded
    case RestoreBroke(_) => m.stage == Uploaded || m.stage == Restoring
    case Restored(_, _, _) => m.stage == Restoring
    case Retry =>
      m.stage == RestoreFailed && m.retryCount < m.maxRetries && now - m.lastTransition >= Backoff(m.retryCount)
    case GiveUp => m.stage == RestoreFailed && m.retryCount >= m.maxRetries
    case Reset => IsTerminal(m.stage)
    case InitialPod(_) => !cfg.webhookManaged
    case Recreate(_) => !cfg.webhookManaged && m.stage == Idle
    case Refresh(_, phase) =>
      !cfg.webhookManaged && m.stage == Idle &&
      (phase.Some? ==> s.phase != Migrating && phase.value in {Pending, Running, PhaseFailed})
    case WebhookRefresh(_, _) => cfg.webhookManaged && s.phase in {Unset, Pending}
    case Checkpointed(_, _) => m.stage == Idle && s.phase != Migrating
    case CheckpointReapplied(_) => true
    case Metadata => true
  }

  function Apply(cfg: Config, s: Status, w: Write, now: Time): Status {
    var m := s.migration;
    match w
    case Start(node, why, quiesce) =>
      var begun := m.(previousNode := node, reason := why, retryCount := 0, lastError := "", dumpId := "",
                      s3Prefix := "", targetPod := "", pageServerAddr := "", pageServerPort := 0);
      AtStage(s, if quiesce then Quiescing else Dumping, begun, now)
    case Latch(pods, _) => AtStage(s, Quiescing, m.(lastError := "quiescing " + Decimal(pods) + " pods"), now)
    case BeginDump => AtStage(s, Dumping, m.(lastError := ""), now)
    case DumpDone(_, dump, node, dialBack) =>
      var dumped := m.(dumpId := dump.id, s3Prefix := Prefix(cfg.app, s.generation, node, dump.id),
                       pipeInodes := dump.pipeInodes, lastError := "",
                       pageServerAddr := if dialBack.Some? then dialBack.value else "",
                       pageServerPort := if dialBack.Some? then PAGE_SERVER_PORT else 0);
      AtStage(s, Uploaded, dumped, now)
    case DumpFailed(_, err) =>
      var record := Record(m.previousNode, "", now, "migration-failed", false, DumpError(err));
      AtStage(s.(history := s.history + [record]), FinalDumpFailed, m.(lastError := err), now)
    case TargetUp(_, pod) => AtStage(s, Restoring, m.(targetPod := pod, lastError := ""), now)
    case RestoreBroke(err) => AtStage(s, RestoreFailed, m.(lastError := err), now)
    case Restored(_, node, pod) =>
      var record := Record(m.previousNode, node, now, m.reason, true, Completed(now - m.lastTransition, m.retryCount));
      s.(history := s.history + [record],
         generation := s.generation + 1,
         currentNode := node,
         currentPod := pod,
         checkpoint := s.checkpoint.(chainDepth := 1),
         migration := ZERO_INFO,
         phase := Running,
         lastUpdate := now)
    case Retry => AtStage(s, Uploaded, m.(retryCount := m.retryCount + 1, targetPod := ""), now)
    case GiveUp =>
      var record := Record(m.previousNode, "", now, "migration-failed", false, Exhausted(m.retryCount, m.lastError));
      AtStage(s.(history := s.history + [record]), Failed, m, now)
    case Reset => s.(migration := ZERO_INFO, phase := Pending, lastUpdate := now)
    case InitialPod(pod) => s.(phase := Pending, generation := 0, currentPod := pod, lastUpdate := now)
    case Recreate(pod) => s.(phase := Pending, currentPod := pod, lastUpdate := now)
    case Refresh(placed, phase) =>
      s.(currentNode := if placed.Some? then placed.value.0 else s.currentNode,
         currentPod := if placed.Some? then placed.value.1 else s.currentPod,
         phase := if phase.Some? then phase.value else s.phase,
         lastUpdate := now)
    case WebhookRefresh(node, pod) =>
      s.(phase := Running, currentNode := node, currentPod := pod, lastUpdate := now)
    case Checkpointed(id, newChain) =>
      var next := if newChain then CheckpointInfo(id, now, 1, id)
                  else s.checkpoint.(lastId := id, lastTime := now, chainDepth := s.checkpoint.chainDepth + 1);
      s.(checkpoint := next)
    case CheckpointReapplied(id) => s.(checkpoint := s.checkpoint.(lastId := id, lastTime := now))
    case Metadata => s
  }

  /** Kubernetes stores times in whole seconds. */
  function WholeSeconds(t: Time): Time {
    t / SECOND * SECOND
  }

  lemma WholeTwice(t: Time)
    ensures WholeSeconds(WholeSeconds(t)) == WholeSeconds(t) && t - SECOND < WholeSeconds(t) <= t
  {
  }

  /** What the API server stores: times are cut to seconds, and the default that the CRD schema declares for
      maxRetries is filled in. */
  function Persist(s: Status): Status {
    var m := s.migration;
    s.(migration := m.(maxRetries := if m.maxRetries == 0 then DEFAULT_MAX_RETRIES else m.maxRetries,
                       lastTransition := WholeSeconds(m.lastTransition)),
       checkpoint := s.checkpoint.(lastTime := WholeSeconds(s.checkpoint.lastTime)),
       lastUpdate := WholeSeconds(s.lastUpdate))
  }

  /** One accepted version of the object. */
  datatype Entry = Entry(status: Status, write: Write, now: Time)

  predicate AtomicStep(cfg: Config, before: Entry, after: Entry) {
    before.now <= after.now &&
    Enabled(cfg, before.status, after.write, after.now) &&
    after.status == (if after.write.Metadata? then before.status
                     else Persist(Apply(cfg, before.status, after.write, after.now)))
  }

  predicate StepAt(cfg: Config, log: seq<Entry>, k: nat)
    requires 0 < k < |log|
  {
    AtomicStep(cfg, log[k - 1], log[k])
  }

  /** A run of the machine in which every write is computed from the newest status. */
  ghost predicate AtomicRun(cfg: Config, log: seq<Entry>) {
    |log| > 0 &&
    log[0].status == INITIAL_STATUS && log[0].write == Metadata &&
    forall k :: 0 < k < |log| ==> StepAt(cfg, log, k)
  }
}
