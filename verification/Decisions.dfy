/** What a reconcile decides from the copy it holds and the answers it gets: the status it tries to store, the
    remote calls it makes and the pods it removes (pkg/controller/migration_fsm.go, pkg/controller/reconciler.go),
    and what follows for a migration that is visited often enough. */
module Decisions {
  import opened Options
  import opened MigrationStatus
  import opened Reconciling
  import opened MigrationSafety

  datatype Outcome<+T> = Ok(value: T) | Err(err: string)

  datatype Lookup = Found(pod: Pod) | Missing(err: string) | Unreachable(err: string)

  /** `deployment` is the Deployment that owns the pod through its ReplicaSet, as `namespace/name`. */
  datatype Pod = Pod(
    name: string,
    node: string,
    ip: string,
    created: Time,
    terminating: bool,
    running: bool,
    failed: bool,
    trigger: Option<string>,
    cordoned: bool,
    deployment: Option<string>)

  datatype Quiesce = Quiesce(selector: map<string, string>, drainSeconds: int, scaleZero: bool)

  datatype Spec = Spec(
    autoMigrate: bool,
    autoAdjust: bool,
    strategy: string,
    quiesce: Option<Quiesce>,
    interval: Option<Time>,
    maxChainDepth: int,
    created: Time)

  /** What becomes of one status update: whether it reaches the API server, whether the reply
      comes back, and how many metadata writes of other clients get in before it. */
  datatype Net = Net(reaches: bool, acked: bool, others: nat)

  datatype PutResult = Stored | Conflict | Broken

  /** Everything a reconcile learns from outside. `lag` is how many versions behind the cache is. */
  datatype Outside = Outside(
    lag: nat,
    deleted: bool,
    hasFinalizer: bool,
    retryRequested: bool,
    pods: Outcome<seq<Pod>>,
    targets: Outcome<seq<Pod>>,
    guardRead: bool,
    sourceAgent: Outcome<()>,
    dump: Answer,
    oldPodDeleted: Outcome<()>,
    newPod: Outcome<Pod>,
    targetRuns: Outcome<()>,
    target: Lookup,
    targetAgent: Outcome<()>,
    restore: Outcome<()>,
    checkpoint: Outcome<string>,
    refetch: Outcome<nat>,
    preserveSource: bool,
    nets: seq<Net>)

  const LOST := Net(false, false, 0)

  function NetOf(o: Outside, k: nat): Net {
    if k < |o.nets| then o.nets[k] else LOST
  }

  /** listQuiesceTargets: the live, running pods, in order. */
  function Targets(pods: seq<Pod>): seq<Pod> {
    if pods == [] then []
    else
      var last := pods[|pods| - 1];
      Targets(pods[..|pods| - 1]) + if !last.terminating && last.running then [last] else []
  }

  /** getCurrentPod: the first of the newest pods that are not being deleted. */
  function CurrentPod(pods: seq<Pod>): Option<Pod> {
    if pods == [] then None
    else
      var current, last := CurrentPod(pods[..|pods| - 1]), pods[|pods| - 1];
      if !last.terminating && (current.None? || last.created > current.value.created) then Some(last) else current
  }

  function StrategyOf(spec: Spec): string {
    if spec.strategy == "" then "lazy-storage" else spec.strategy
  }

  predicate UsesPageServer(spec: Spec) {
    StrategyOf(spec) == "lazy-direct" || StrategyOf(spec) == "lazy-hybrid"
  }

  /** needsMigration: the reason to start, if any. */
  function NeedsMigration(s: Status, spec: Spec, pod: Pod): Option<string> {
    if s.migration.stage != Idle then None
    else if !spec.autoMigrate then None
    else if pod.trigger.Some? then Some(if pod.trigger.value == "" then "manual" else pod.trigger.value)
    else if pod.node != "" && pod.cordoned then Some("spot-interrupt")
    else None
  }

  predicate ShouldCheckpoint(s: Status, spec: Spec, now: Time) {
    spec.interval.Some? && spec.interval.value != 0 &&
    (if s.checkpoint.lastTime == 0 then spec.created == 0 || now - spec.created >= 60 * SECOND
     else now - s.checkpoint.lastTime >= spec.interval.value)
  }

  function DrainBudget(q: Quiesce): Time {
    if q.drainSeconds <= 0 then 5 * SECOND else q.drainSeconds * SECOND
  }

  // What each stage handler tries to store, from the copy it holds and the answers it gets.

  function QuiescingTries(m: MigrationInfo, q: Option<Quiesce>, targets: Outcome<seq<Pod>>, now: Time): Option<Write> {
    if q.None? || |q.value.selector| == 0 || targets.Err? || Targets(targets.value) == [] ||
       now - m.lastTransition >= DrainBudget(q.value) then Some(BeginDump)
    else if m.lastError == "" then Some(Latch(|Targets(targets.value)|, DrainBudget(q.value)))
    else None
  }

  /** `call` is the number the FinalDump call gets if it is made. */
  function DumpingTries(newest: Stage, spec: Spec, pod: Pod, o: Outside, call: nat): Option<Write> {
    if o.guardRead && newest != Dumping then None
    else if o.sourceAgent.Err? then Some(DumpFailed(None, "failed to connect to source agent: " + o.sourceAgent.err))
    else if o.dump.Refused? then Some(DumpFailed(Some(call), o.dump.err))
    else Some(DumpDone(call, o.dump.dump, pod.node, if UsesPageServer(spec) then Some(pod.ip) else None))
  }

  /** The name of the target pod once it runs. */
  function UpOf(o: Outside): Option<string> {
    if o.newPod.Ok? && o.targetRuns.Ok? then Some(o.newPod.value.name) else None
  }

  function ErrorOf<T>(r: Outcome<T>): Option<string> {
    if r.Err? then Some(r.err) else None
  }

  function UploadedTries(newest: Stage, o: Outside, call: nat): Option<Write> {
    if o.guardRead && newest != Uploaded then None
    else if o.newPod.Err? then Some(RestoreBroke("failed to create target pod: " + o.newPod.err))
    else if o.targetRuns.Err? then Some(RestoreBroke("target pod failed to reach Running: " + o.targetRuns.err))
    else Some(TargetUp(call, o.newPod.value.name))
  }

  function RestoringTries(m: MigrationInfo, o: Outside, call: nat): Write {
    if !o.target.Found? then RestoreBroke("target pod " + m.targetPod + " not found: " + o.target.err)
    else if o.targetAgent.Err? then RestoreBroke("failed to connect to target agent: " + o.targetAgent.err)
    else if o.restore.Err? then RestoreBroke("Restore RPC failed: " + o.restore.err)
    else Restored(call, o.target.pod.node, o.target.pod.name)
  }

  function RestoreFailedTries(m: MigrationInfo, o: Outside, now: Time): Option<Write> {
    if m.retryCount >= m.maxRetries then Some(GiveUp)
    else if now - m.lastTransition < Backoff(m.retryCount) then None
    else if m.targetPod != "" && !o.target.Missing? then None
    else Some(Retry)
  }

  // The remote calls a handler makes: what they carry is the copy's, `at` is how many versions there are.

  function DumpingCalls(newest: Stage, o: Outside, version: nat, at: nat): seq<Call> {
    if (o.guardRead && newest != Dumping) || o.sourceAgent.Err? then []
    else [FinalDump(version, at, o.guardRead, o.dump)]
  }

  function UploadedCalls(s: Status, newest: Stage, o: Outside, version: nat, at: nat): seq<Call> {
    if o.guardRead && newest != Uploaded then []
    else
      var m := s.migration;
      [CreateTarget(version, at, o.guardRead, s.generation + 1, m.dumpId, m.s3Prefix, m.previousNode, m.pageServerAddr,
                    UpOf(o))]
  }

  function RestoringCalls(m: MigrationInfo, o: Outside, version: nat, at: nat): seq<Call> {
    if !o.target.Found? || o.targetAgent.Err? then []
    else [RestoreRpc(version, at, m.dumpId, m.s3Prefix, m.pipeInodes, m.pageServerAddr, ErrorOf(o.restore))]
  }

  function StageCalls(s: Status, newest: Stage, o: Outside, version: nat, at: nat): seq<Call> {
    match s.migration.stage
    case Dumping => DumpingCalls(newest, o, version, at)
    case Uploaded => UploadedCalls(s, newest, o, version, at)
    case Restoring => RestoringCalls(s.migration, o, version, at)
    case _ => []
  }

  /** The handler of the copy's stage; `newest` is what an uncached read returns. */
  function StageTries(m: MigrationInfo, newest: Stage, spec: Spec, pod: Pod, o: Outside, now: Time, call: nat)
    : Option<Write>
  {
    match m.stage
    case Quiescing => QuiescingTries(m, spec.quiesce, o.targets, now)
    case Dumping => DumpingTries(newest, spec, pod, o, call)
    case Uploaded => UploadedTries(newest, o, call)
    case Restoring => Some(RestoringTries(m, o, call))
    case RestoreFailed => RestoreFailedTries(m, o, now)
    case _ => None
  }

  function StartOf(spec: Spec, pod: Pod, why: string): Write {
    Start(pod.node, why, spec.quiesce.Some? && |spec.quiesce.value.selector| > 0)
  }

  /** performPreCheckpoint continues the chain unless there is no last dump or the chain is full. */
  function CheckpointTries(s: Status, spec: Spec, o: Outside): Option<Write> {
    if o.checkpoint.Err? then None
    else
      var full := spec.maxChainDepth > 0 && s.checkpoint.chainDepth >= spec.maxChainDepth;
      Some(Checkpointed(o.checkpoint.value, full || s.checkpoint.lastId == ""))
  }

  predicate Checkpoints(s: Status, spec: Spec, pod: Pod, now: Time) {
    pod.running && s.phase != Migrating && !spec.autoAdjust && ShouldCheckpoint(s, spec, now)
  }

  /** The status of an idle app after its pod. */
  function RefreshTries(s: Status, pod: Pod): Option<Write> {
    var placed := if pod.node != "" && s.currentNode != pod.node then Some((pod.node, pod.name)) else None;
    var shown := if pod.running then Running else if pod.failed then PhaseFailed else Pending;
    var phase := if s.phase != Migrating && s.phase != shown then Some(shown) else None;
    if placed.Some? || phase.Some? then Some(Refresh(placed, phase)) else None
  }

  function CheckpointIfDue(s: Status, spec: Spec, pod: Pod, o: Outside, now: Time): Option<Write> {
    if Checkpoints(s, spec, pod, now) then CheckpointTries(s, spec, o) else None
  }

  /** What a webhook-managed app does once it has a phase. */
  function WatchTries(s: Status, newest: Stage, spec: Spec, pod: Pod, o: Outside, now: Time, call: nat): Option<Write> {
    if s.migration.stage != Idle then StageTries(s.migration, newest, spec, pod, o, now, call)
    else if s.phase == Migrating then None
    else if NeedsMigration(s, spec, pod).Some? then Some(StartOf(spec, pod, NeedsMigration(s, spec, pod).value))
    else CheckpointIfDue(s, spec, pod, o, now)
  }

  function WebhookTries(s: Status, newest: Stage, spec: Spec, o: Outside, now: Time, call: nat): Option<Write> {
    if o.pods.Err? || CurrentPod(o.pods.value).None? then None
    else
      var pod := CurrentPod(o.pods.value).value;
      if s.phase == Unset || s.phase == Pending then Some(WebhookRefresh(pod.node, pod.name))
      else WatchTries(s, newest, spec, pod, o, now, call)
  }

  function OwnPodTries(s: Status, newest: Stage, spec: Spec, o: Outside, now: Time, call: nat): Option<Write> {
    if o.pods.Err? then None
    else if CurrentPod(o.pods.value).None? then NewPodTries(o, false)
    else
      var pod := CurrentPod(o.pods.value).value;
      if s.migration.stage != Idle then StageTries(s.migration, newest, spec, pod, o, now, call)
      else if NeedsMigration(s, spec, pod).Some? then Some(StartOf(spec, pod, NeedsMigration(s, spec, pod).value))
      else if pod.failed then NewPodTries(o, true)
      else if RefreshTries(s, pod).Some? then RefreshTries(s, pod)
      else CheckpointIfDue(s, spec, pod, o, now)
  }

  function NewPodTries(o: Outside, again: bool): Option<Write> {
    if (again && o.oldPodDeleted.Err?) || o.newPod.Err? then None
    else Some(if again then Recreate(o.newPod.value.name) else InitialPod(o.newPod.value.name))
  }

  /** The first status a reconcile tries to store, in the order of the source's checks. */
  function ReconcileTries(cfg: Config, s: Status, newest: Stage, spec: Spec, o: Outside, now: Time, call: nat)
    : Option<Write>
  {
    if o.deleted || !o.hasFinalizer then None
    else if o.retryRequested && IsTerminal(s.migration.stage) then Some(Reset)
    else if cfg.webhookManaged then WebhookTries(s, newest, spec, o, now, call)
    else OwnPodTries(s, newest, spec, o, now, call)
  }

  // ---------------------------------------------------------------- what the pods lose

  function NamesOf(pods: seq<Pod>): seq<string> {
    seq(|pods|, i requires 0 <= i < |pods| => pods[i].name)
  }

  /** The quiesce action of the latching visit: either the pods are deleted or their Deployments are scaled to zero. */
  function QuiesceDeletes(m: MigrationInfo, q: Option<Quiesce>, targets: Outcome<seq<Pod>>, now: Time): seq<string> {
    var x := QuiescingTries(m, q, targets, now);
    if x.Some? && x.value.Latch? && !q.value.scaleZero then NamesOf(Targets(targets.value)) else []
  }

  function QuiesceScales(m: MigrationInfo, q: Option<Quiesce>, targets: Outcome<seq<Pod>>, now: Time): seq<string> {
    var x := QuiescingTries(m, q, targets, now);
    if x.Some? && x.value.Latch? && q.value.scaleZero then Owners(Targets(targets.value)) else []
  }

  /** The Deployments of the pods, each once, in the order of their first pod. */
  function Owners(pods: seq<Pod>): seq<string> {
    if pods == [] then []
    else
      var owners, last := Owners(pods[..|pods| - 1]), pods[|pods| - 1];
      if last.deployment.Some? && last.deployment.value !in owners then owners + [last.deployment.value] else owners
  }

  lemma {:induction false} OwnersAre(pods: seq<Pod>)
    ensures forall d :: d in Owners(pods) <==> exists p :: p in pods && p.deployment == Some(d)
    ensures forall i, j :: 0 <= i < j < |Owners(pods)| ==> Owners(pods)[i] != Owners(pods)[j]
  {
    if pods != [] {
      var init, last := pods[..|pods| - 1], pods[|pods| - 1];
      OwnersAre(init);
      assert pods == init + [last];
      assert last in pods;
    }
  }

  lemma {:induction false} TargetsAre(pods: seq<Pod>)
    ensures forall p :: p in Targets(pods) <==> p in pods && !p.terminating && p.running
  {
    if pods != [] {
      TargetsAre(pods[..|pods| - 1]);
      assert pods == pods[..|pods| - 1] + [pods[|pods| - 1]];
    }
  }

  /** A target pod that does not get to run is removed at once. */
  function UploadedDeletes(newest: Stage, o: Outside): seq<string> {
    if (o.guardRead && newest != Uploaded) || o.newPod.Err? || o.targetRuns.Ok? then [] else [o.newPod.value.name]
  }

  /** A retry first removes the pod of the failed attempt. */
  function RetryDeletes(m: MigrationInfo, o: Outside, now: Time): seq<string> {
    if m.retryCount < m.maxRetries && now - m.lastTransition >= Backoff(m.retryCount) && m.targetPod != "" &&
       o.target.Found?
    then [o.target.pod.name] else []
  }

  /** The deletes of every stage but Restoring, whose one delete waits for the write to be acknowledged. */
  function StageDeletes(m: MigrationInfo, newest: Stage, spec: Spec, o: Outside, now: Time): seq<string> {
    match m.stage
    case Quiescing => QuiesceDeletes(m, spec.quiesce, o.targets, now)
    case Uploaded => UploadedDeletes(newest, o)
    case RestoreFailed => RetryDeletes(m, o, now)
    case _ => []
  }

  /** The first visit within the drain budget acts on the pods that run and are not going, in one of two ways: it
      deletes them, or it scales the Deployments that own them to zero. No other visit does. */
  lemma QuiesceActs(m: MigrationInfo, q: Option<Quiesce>, targets: Outcome<seq<Pod>>, now: Time)
    ensures var acts := q.Some? && q.value.selector != map[] && m.lastError == "" && targets.Ok? &&
                        now < m.lastTransition + DrainBudget(q.value);
            var x, gone, scaled := QuiescingTries(m, q, targets, now), QuiesceDeletes(m, q, targets, now),
                                   QuiesceScales(m, q, targets, now);
            (gone != [] ==> acts && !q.value.scaleZero) && (scaled != [] ==> acts && q.value.scaleZero) &&
            (acts && !q.value.scaleZero ==>
               forall n :: n in gone <==>
                           exists p :: p in targets.value && !p.terminating && p.running && p.name == n) &&
            (acts && q.value.scaleZero ==>
               forall d :: d in scaled <==>
                           exists p :: p in targets.value && !p.terminating && p.running && p.deployment == Some(d)) &&
            ((x.Some? && x.value.Latch?) <==>
             acts && exists p :: p in targets.value && !p.terminating && p.running)
  {
    hide Targets, NamesOf, Owners, DrainBudget;
    if targets.Ok? {
      NamesAre(targets.value);
      TargetOwners(targets.value);
      NoTargets(targets.value);
    }
    assert q.Some? ==> (q.value.selector == map[] <==> |q.value.selector| == 0);
  }

  lemma NamesAre(pods: seq<Pod>)
    ensures forall n :: n in NamesOf(Targets(pods)) <==>
                        exists p :: p in pods && !p.terminating && p.running && p.name == n
  {
    TargetsAre(pods);
    var going := Targets(pods);
    hide Targets;
    forall p | p in going
      ensures p.name in NamesOf(going)
    {
      var i :| 0 <= i < |going| && going[i] == p;
      assert NamesOf(going)[i] == p.name;
    }
    assert forall n :: n in NamesOf(going) <==> exists p :: p in going && p.name == n;
  }

  lemma TargetOwners(pods: seq<Pod>)
    ensures forall d :: d in Owners(Targets(pods)) <==>
                        exists p :: p in pods && !p.terminating && p.running && p.deployment == Some(d)
  {
    TargetsAre(pods);
    OwnersAre(Targets(pods));
    hide Targets, Owners;
  }

  lemma NoTargets(pods: seq<Pod>)
    ensures Targets(pods) != [] <==> exists p :: p in pods && !p.terminating && p.running
  {
    TargetsAre(pods);
    if Targets(pods) != [] {
      assert Targets(pods)[0] in Targets(pods);
    }
    hide Targets;
  }

  // ---------------------------------------------------------------- every decision is permitted

  /** A stage handler tries only what the machine permits from the copy it holds. */
  lemma StageTriesPermitted(cfg: Config, s: Status, newest: Stage, spec: Spec, pod: Pod, o: Outside, now: Time,
                            call: nat)
    ensures var x := StageTries(s.migration, newest, spec, pod, o, now, call);
            x.Some? ==> InFlight(s.migration.stage) && Advances(x.value) && Enabled(cfg, s, x.value, now)
  {
    if s.migration.stage == Quiescing {
      QuiescingPermitted(cfg, s, spec.quiesce, o.targets, now);
    }
    hide QuiescingTries, Backoff;
  }

  lemma QuiescingPermitted(cfg: Config, s: Status, q: Option<Quiesce>, targets: Outcome<seq<Pod>>, now: Time)
    requires s.migration.stage == Quiescing
    ensures var x := QuiescingTries(s.migration, q, targets, now);
            x.Some? ==> Advances(x.value) && Enabled(cfg, s, x.value, now)
  {
  }

  lemma OwnPodPermitted(cfg: Config, s: Status, newest: Stage, spec: Spec, o: Outside, now: Time, call: nat)
    requires !cfg.webhookManaged
    ensures var x := OwnPodTries(s, newest, spec, o, now, call);
            x.Some? ==> !x.value.Metadata? && Enabled(cfg, s, x.value, now)
  {
    if o.pods.Ok? && CurrentPod(o.pods.value).Some? {
      StageTriesPermitted(cfg, s, newest, spec, CurrentPod(o.pods.value).value, o, now, call);
    }
    hide StageTries, ShouldCheckpoint, CurrentPod, Backoff;
  }

  lemma WebhookPermitted(cfg: Config, s: Status, newest: Stage, spec: Spec, o: Outside, now: Time, call: nat)
    requires cfg.webhookManaged
    ensures var x := WebhookTries(s, newest, spec, o, now, call);
            x.Some? ==> !x.value.Metadata? && Enabled(cfg, s, x.value, now)
  {
    if o.pods.Ok? && CurrentPod(o.pods.value).Some? {
      StageTriesPermitted(cfg, s, newest, spec, CurrentPod(o.pods.value).value, o, now, call);
    }
    hide StageTries, ShouldCheckpoint, CurrentPod, Backoff;
  }

  /** Whatever a reconcile tries first, from any copy, is a write that the machine permits there. */
  lemma TriesPermitted(cfg: Config, s: Status, newest: Stage, spec: Spec, o: Outside, now: Time, call: nat)
    ensures var x := ReconcileTries(cfg, s, newest, spec, o, now, call);
            x.Some? ==> !x.value.Metadata? && Enabled(cfg, s, x.value, now)
  {
    hide WebhookTries, OwnPodTries;
    if cfg.webhookManaged {
      WebhookPermitted(cfg, s, newest, spec, o, now, call);
    } else {
      OwnPodPermitted(cfg, s, newest, spec, o, now, call);
    }
  }

  // ---------------------------------------------------------------- when it decides what

  /** The pod asks to be moved: by its annotation, or because its node is cordoned. */
  predicate WantsToMove(spec: Spec, pod: Pod) {
    spec.autoMigrate && (pod.trigger.Some? || (pod.node != "" && pod.cordoned))
  }

  /** A migration starts exactly for an idle app whose current pod asks to be moved; a webhook-managed app must have a
      phase first. */
  lemma StartsIff(cfg: Config, s: Status, newest: Stage, spec: Spec, o: Outside, now: Time, call: nat)
    requires s.migration.stage == Idle
    ensures var x := ReconcileTries(cfg, s, newest, spec, o, now, call);
            (x.Some? && x.value.Start?) <==>
            !o.deleted && o.hasFinalizer && o.pods.Ok? && CurrentPod(o.pods.value).Some? &&
            WantsToMove(spec, CurrentPod(o.pods.value).value) &&
            (cfg.webhookManaged ==> s.phase == Running || s.phase == PhaseFailed)
  {
    hide ShouldCheckpoint, CurrentPod;
  }

  /** The reason is the annotation's, "manual" if it is empty, and the interruption of the node otherwise. */
  lemma ReasonIs(s: Status, spec: Spec, pod: Pod)
    requires s.migration.stage == Idle && WantsToMove(spec, pod)
    ensures var why := NeedsMigration(s, spec, pod);
            (pod.trigger == None ==> why == Some("spot-interrupt")) &&
            (pod.trigger == Some("") ==> why == Some("manual")) &&
            (pod.trigger.Some? && pod.trigger.value != "" ==> why == pod.trigger)
  {
  }

  /** A reset follows a retry request of a failed migration and nothing else. */
  lemma ResetsIff(cfg: Config, s: Status, newest: Stage, spec: Spec, o: Outside, now: Time, call: nat)
    ensures ReconcileTries(cfg, s, newest, spec, o, now, call) == Some(Reset) <==>
            !o.deleted && o.hasFinalizer && o.retryRequested && s.migration.stage in {FinalDumpFailed, Failed}
  {
    if o.pods.Ok? && CurrentPod(o.pods.value).Some? {
      StageTriesPermitted(cfg, s, newest, spec, CurrentPod(o.pods.value).value, o, now, call);
    }
    hide StageTries, ShouldCheckpoint, CurrentPod, Enabled;
  }

  /** The operator's own pod: the first one comes when every listed pod is going, another one when the current pod of
      an idle app has failed, was not to be moved and could be deleted. */
  lemma NewPodIff(cfg: Config, s: Status, newest: Stage, spec: Spec, o: Outside, now: Time, call: nat)
    requires !o.deleted && o.hasFinalizer && !(o.retryRequested && IsTerminal(s.migration.stage))
    ensures var x := ReconcileTries(cfg, s, newest, spec, o, now, call);
            var own := !cfg.webhookManaged && o.pods.Ok? && o.newPod.Ok?;
            ((x.Some? && x.value.InitialPod?) <==> own && forall p :: p in o.pods.value ==> p.terminating) &&
            ((x.Some? && x.value.Recreate?) <==>
             own && s.migration.stage == Idle && CurrentPod(o.pods.value).Some? &&
             CurrentPod(o.pods.value).value.failed && !WantsToMove(spec, CurrentPod(o.pods.value).value) &&
             o.oldPodDeleted.Ok?)
  {
    if o.pods.Ok? {
      NoCurrentPod(o.pods.value);
      if CurrentPod(o.pods.value).Some? {
        StageTriesPermitted(cfg, s, newest, spec, CurrentPod(o.pods.value).value, o, now, call);
      }
    }
    hide StageTries, ShouldCheckpoint, CurrentPod, Enabled, IsTerminal;
  }

  /** Its name is stored and the app waits for it; the first pod starts the generations anew. */
  lemma NewPodStored(cfg: Config, s: Status, o: Outside, again: bool, now: Time)
    requires NewPodTries(o, again).Some?
    ensures var t := Persist(Apply(cfg, s, NewPodTries(o, again).value, now));
            o.newPod.Ok? && t.currentPod == o.newPod.value.name && t.phase == Pending && t.history == s.history &&
            t.migration.stage == s.migration.stage && t.generation == if again then s.generation else 0
  {
  }

  /** A webhook-managed app without a phase takes over its current pod and counts as running. */
  lemma AdoptsIff(cfg: Config, s: Status, newest: Stage, spec: Spec, o: Outside, now: Time, call: nat)
    requires !o.deleted && o.hasFinalizer && !(o.retryRequested && IsTerminal(s.migration.stage))
    ensures var x := ReconcileTries(cfg, s, newest, spec, o, now, call);
            ((x.Some? && x.value.WebhookRefresh?) <==>
             cfg.webhookManaged && s.phase in {Unset, Pending} && o.pods.Ok? && CurrentPod(o.pods.value).Some?) &&
            (x.Some? && x.value.WebhookRefresh? ==>
               var pod, t := CurrentPod(o.pods.value).value, Persist(Apply(cfg, s, x.value, now));
               t.phase == Running && t.currentNode == pod.node && t.currentPod == pod.name &&
               t.migration.stage == s.migration.stage && t.history == s.history && t.generation == s.generation)
  {
    if o.pods.Ok? && CurrentPod(o.pods.value).Some? {
      StageTriesPermitted(cfg, s, newest, spec, CurrentPod(o.pods.value).value, o, now, call);
    }
    hide StageTries, ShouldCheckpoint, CurrentPod, Enabled, IsTerminal;
  }

  /** A periodic checkpoint is stored exactly for an idle app whose running pod needs nothing else, once the interval
      is over: a minute after the app was created for the first one, the configured time after the last otherwise. */
  lemma CheckpointsIff(cfg: Config, s: Status, newest: Stage, spec: Spec, o: Outside, now: Time, call: nat)
    requires !o.deleted && o.hasFinalizer && s.migration.stage == Idle && o.pods.Ok?
    requires CurrentPod(o.pods.value).Some? && !WantsToMove(spec, CurrentPod(o.pods.value).value)
    ensures var x := ReconcileTries(cfg, s, newest, spec, o, now, call);
            var pod, last := CurrentPod(o.pods.value).value, s.checkpoint.lastTime;
            (x.Some? && x.value.Checkpointed?) <==>
            pod.running && spec.interval.Some? && spec.interval.value != 0 && !spec.autoAdjust && o.checkpoint.Ok? &&
            (if last != 0 then now >= last + spec.interval.value
             else spec.created == 0 || now >= spec.created + 60_000_000_000) &&
            (if cfg.webhookManaged then s.phase == Running || s.phase == PhaseFailed
             else !pod.failed && (pod.node == "" || s.currentNode == pod.node) && s.phase == Running)
  {
    hide CurrentPod;
  }

  /** A copy of a migration in flight is only advanced, and a failed one waits for the retry request. */
  lemma BusyOnlyAdvances(cfg: Config, s: Status, newest: Stage, spec: Spec, o: Outside, now: Time, call: nat)
    requires StatusFits(cfg, s) && s.migration.stage != Idle
    ensures var x := ReconcileTries(cfg, s, newest, spec, o, now, call);
            (x.Some? ==> x.value.InitialPod? || (InFlight(s.migration.stage) && Advances(x.value)) || x.value.Reset?) &&
            (x.Some? && x.value.Reset? ==> o.retryRequested && IsTerminal(s.migration.stage)) &&
            (x.Some? && x.value.InitialPod? ==> o.pods.Ok? && forall p :: p in o.pods.value ==> p.terminating)
  {
    if o.pods.Ok? {
      NoCurrentPod(o.pods.value);
      if CurrentPod(o.pods.value).Some? {
        StageTriesPermitted(cfg, s, newest, spec, CurrentPod(o.pods.value).value, o, now, call);
      }
    }
    hide StageTries, ShouldCheckpoint, CurrentPod, Enabled;
  }

  lemma {:induction false} NoCurrentPod(pods: seq<Pod>)
    ensures CurrentPod(pods) == None <==> forall p :: p in pods ==> p.terminating
  {
    if pods != [] {
      NoCurrentPod(pods[..|pods| - 1]);
      assert pods == pods[..|pods| - 1] + [pods[|pods| - 1]];
      assert pods[|pods| - 1] in pods;
    }
  }

  /** Once a refresh is stored, the status shows the pod and there is nothing left to refresh. */
  lemma RefreshConverges(cfg: Config, s: Status, pod: Pod, now: Time)
    requires RefreshTries(s, pod).Some?
    ensures var t := Persist(Apply(cfg, s, RefreshTries(s, pod).value, now));
            RefreshTries(t, pod) == None && (pod.node != "" ==> t.currentNode == pod.node) &&
            (s.currentNode != t.currentNode ==> t.currentPod == pod.name) &&
            (s.phase == Migrating ==> t.phase == Migrating) &&
            (s.phase != Migrating ==>
               (t.phase == Running <==> pod.running) && (t.phase == PhaseFailed <==> !pod.running && pod.failed) &&
               (t.phase == Pending <==> !pod.running && !pod.failed))
  {
  }

  /** A checkpoint is the last one of its chain: it starts one, of depth one and rooted in itself, or makes the present
      one longer by one, and with a limit no chain is longer than that. */
  lemma CheckpointChains(cfg: Config, s: Status, spec: Spec, o: Outside, now: Time)
    requires CheckpointTries(s, spec, o).Some?
    ensures var before := s.checkpoint;
            var after := Persist(Apply(cfg, s, CheckpointTries(s, spec, o).value, now)).checkpoint;
            after.lastId == o.checkpoint.value &&
            ((after.chainDepth == 1 && after.chainRoot == after.lastId) ||
             (before.lastId != "" && after.chainDepth == before.chainDepth + 1 &&
              after.chainRoot == before.chainRoot)) &&
            (before.lastId == "" ==> after.chainDepth == 1) &&
            (spec.maxChainDepth > 0 && before.chainDepth <= spec.maxChainDepth ==>
               after.chainDepth <= spec.maxChainDepth)
  {
  }

  /** A checkpoint that is stored again after a conflict, on a copy of any age, becomes the last one; what the copy
      says of the chain and the migration stays. */
  lemma ReappliedIsLast(cfg: Config, s: Status, id: string, now: Time)
    ensures var t := Persist(Apply(cfg, s, CheckpointReapplied(id), now));
            t.checkpoint.lastId == id && now - SECOND < t.checkpoint.lastTime <= now &&
            t.checkpoint.chainDepth == s.checkpoint.chainDepth && t.checkpoint.chainRoot == s.checkpoint.chainRoot &&
            t.phase == s.phase && t.history == s.history && t.migration.stage == s.migration.stage
  {
    WholeTwice(now);
  }

  /** Two checkpoints are at least the interval apart, counted from the stored time of the first. */
  lemma CheckpointsSpaced(cfg: Config, s: Status, spec: Spec, o: Outside, now: Time, pod: Pod, later: Time)
    requires CheckpointTries(s, spec, o).Some? && now >= SECOND
    ensures var t := Persist(Apply(cfg, s, CheckpointTries(s, spec, o).value, now));
            Checkpoints(t, spec, pod, later) ==>
              pod.running && t.phase != Migrating && spec.interval.Some? &&
              later >= WholeSeconds(now) + spec.interval.value
  {
    WholeTwice(now);
    assert WholeSeconds(now) > 0;
    hide WholeSeconds;
  }

  /** The first checkpoint waits a minute after the app was created. */
  lemma FirstCheckpointWaits(s: Status, spec: Spec, pod: Pod, now: Time)
    requires s.checkpoint.lastTime == 0 && spec.created != 0 && Checkpoints(s, spec, pod, now)
    ensures now >= spec.created + 60 * SECOND
  {
  }

  /** The drain budget is the configured number of seconds, or five. */
  lemma DrainBudgetIs(q: Quiesce)
    ensures q.drainSeconds > 0 ==> DrainBudget(q) == q.drainSeconds * 1_000_000_000
    ensures q.drainSeconds <= 0 ==> DrainBudget(q) == 5_000_000_000
  {
  }

  /** A retry backs off for two seconds after the second failure, five after the third, and not after the first. */
  lemma BacksOffIff(m: MigrationInfo, now: Time)
    requires m.stage == RestoreFailed && m.maxRetries == 3 && 0 <= m.retryCount <= 3 && now >= m.lastTransition
    ensures BacksOff(m, now) <==>
            (m.retryCount == 1 && now < m.lastTransition + 2_000_000_000) ||
            (m.retryCount == 2 && now < m.lastTransition + 5_000_000_000)
  {
  }

  // ---------------------------------------------------------------- waiting

  /** The quiesce action was taken, a target pod is still running and the drain budget is not spent. */
  predicate Polls(m: MigrationInfo, spec: Spec, o: Outside, now: Time) {
    m.stage == Quiescing && m.lastError != "" && spec.quiesce.Some? && |spec.quiesce.value.selector| > 0 &&
    o.targets.Ok? && (exists p :: p in o.targets.value && !p.terminating && p.running) &&
    now < m.lastTransition + DrainBudget(spec.quiesce.value)
  }

  predicate BacksOff(m: MigrationInfo, now: Time) {
    m.stage == RestoreFailed && m.retryCount < m.maxRetries && now < m.lastTransition + Backoff(m.retryCount)
  }

  /** The pod of the failed attempt is still there, or cannot be looked up. */
  predicate TargetLingers(m: MigrationInfo, o: Outside, now: Time) {
    m.stage == RestoreFailed && m.retryCount < m.maxRetries && now >= m.lastTransition + Backoff(m.retryCount) &&
    m.targetPod != "" && !o.target.Missing?
  }

  /** The uncached read shows that the copy is out of date. */
  predicate GuardMoved(m: MigrationInfo, newest: Stage, o: Outside) {
    (m.stage == Dumping || m.stage == Uploaded) && o.guardRead && newest != m.stage
  }

  lemma PollsIff(m: MigrationInfo, spec: Spec, o: Outside, now: Time)
    requires m.stage == Quiescing
    ensures QuiescingTries(m, spec.quiesce, o.targets, now) == None <==> Polls(m, spec, o, now)
  {
    if o.targets.Ok? {
      TargetsAre(o.targets.value);
      if Targets(o.targets.value) != [] {
        assert Targets(o.targets.value)[0] in Targets(o.targets.value);
      }
      hide Targets;
    }
  }

  /** A migration in flight is left alone in exactly four situations. */
  lemma WaitsIff(m: MigrationInfo, newest: Stage, spec: Spec, pod: Pod, o: Outside, now: Time, call: nat)
    requires InFlight(m.stage)
    ensures StageTries(m, newest, spec, pod, o, now, call) == None <==>
            Polls(m, spec, o, now) || BacksOff(m, now) || TargetLingers(m, o, now) || GuardMoved(m, newest, o)
  {
    if m.stage == Quiescing {
      PollsIff(m, spec, o, now);
    } else {
      assert !Polls(m, spec, o, now);
    }
    hide QuiescingTries, Polls, RestoringTries;
  }

  /** Quiescing is bounded: whoever holds the newest copy two budgets after entry moves on to Dumping, whatever pods
      are still there. */
  lemma QuiesceMovesOn(cfg: Config, log: seq<Entry>, i: nat, q: Option<Quiesce>, targets: Outcome<seq<Pod>>, now: Time,
                       budget: Time)
    requires AtomicRun(cfg, log) && 0 < i < |log| && log[i].write.Start? && SameMigration(log, i, |log| - 1)
    requires budget >= 0 && forall j :: i < j < |log| && log[j].write.Latch? ==> log[j].write.budget <= budget
    requires log[|log| - 1].status.migration.stage == Quiescing && (q.Some? ==> DrainBudget(q.value) <= budget)
    requires now >= log[i].now + 2 * budget
    ensures QuiescingTries(log[|log| - 1].status.migration, q, targets, now) == Some(BeginDump)
  {
    QuiesceStamp(cfg, log, i, |log| - 1, budget);
  }

  // ---------------------------------------------------------------- progress

  /** A reconcile that holds the newest copy and whose write is accepted. */
  datatype Visit = Visit(spec: Spec, pod: Pod, o: Outside, now: Time)

  function TriesAt(s: Status, v: Visit): Option<Write> {
    StageTries(s.migration, s.migration.stage, v.spec, v.pod, v.o, v.now, 0)
  }

  function After(cfg: Config, s: Status, v: Visit): Status {
    StoredBy(cfg, s, TriesAt(s, v), v.now)
  }

  function StoredBy(cfg: Config, s: Status, x: Option<Write>, now: Time): Status {
    if x.None? then s else Persist(Apply(cfg, s, x.value, now))
  }

  function AfterAll(cfg: Config, s: Status, visits: seq<Visit>): Status
    decreases |visits|
  {
    if visits == [] then s else AfterAll(cfg, After(cfg, s, visits[0]), visits[1..])
  }

  /** How many of the visits find the pod of a failed attempt still there. */
  function Lingering(cfg: Config, s: Status, visits: seq<Visit>): nat
    decreases |visits|
  {
    if visits == [] then 0
    else
      (if TargetLingers(s.migration, visits[0].o, visits[0].now) then 1 else 0) +
      Lingering(cfg, After(cfg, s, visits[0]), visits[1..])
  }

  /** The longest wait that the clock alone ends. */
  function LongestWait(budget: Time): Time {
    if budget < 5 * SECOND then 5 * SECOND else budget
  }

  /** Visits at least one longest wait apart, the first one that long after `from`. */
  predicate Spaced(from: Time, visits: seq<Visit>, budget: Time)
    decreases |visits|
  {
    visits == [] ||
    var v := visits[0];
    v.now >= from + LongestWait(budget) &&
    (v.spec.quiesce.Some? ==> DrainBudget(v.spec.quiesce.value) <= budget) &&
    Spaced(v.now, visits[1..], budget)
  }

  /** The number that a FinalDump call got is not part of the status. */
  lemma CallIrrelevant(cfg: Config, s: Status, newest: Stage, spec: Spec, pod: Pod, o: Outside, now: Time, call: nat)
    ensures StoredBy(cfg, s, StageTries(s.migration, newest, spec, pod, o, now, call), now) ==
            StoredBy(cfg, s, StageTries(s.migration, newest, spec, pod, o, now, 0), now)
  {
    hide QuiescingTries, RestoreFailedTries, Persist, Prefix, PhaseForStage;
  }

  /** What one visit of a migration in flight does: it waits for a lingering target, or it burns fuel. */
  lemma VisitStep(cfg: Config, s: Status, v: Visit, from: Time, budget: Time)
    requires StatusFits(cfg, s) && InFlight(s.migration.stage) && s.migration.lastTransition <= from
    requires v.now >= from + LongestWait(budget)
    requires v.spec.quiesce.Some? ==> DrainBudget(v.spec.quiesce.value) <= budget
    ensures var t := After(cfg, s, v);
            StatusFits(cfg, t) && (InFlight(t.migration.stage) ==> t.migration.lastTransition <= v.now) &&
            (if TargetLingers(s.migration, v.o, v.now) then t == s else Fuel(t.migration) < Fuel(s.migration)) &&
            |t.history| + Busy(t) == |s.history| + 1
  {
    WaitsIff(s.migration, s.migration.stage, v.spec, v.pod, v.o, v.now, 0);
    StageTriesPermitted(cfg, s, s.migration.stage, v.spec, v.pod, v.o, v.now, 0);
    var x := TriesAt(s, v);
    hide StageTries, Apply, Enabled, TriesAt, Targets;
    if x.Some? {
      WriteKeepsPhase(cfg, s, x.value, v.now);
      WriteKeepsRecord(cfg, s, x.value, v.now);
      WriteBurnsFuel(cfg, s, x.value, v.now);
      WriteStamps(cfg, s, x.value, v.now);
    }
  }

  lemma WriteStamps(cfg: Config, s: Status, w: Write, now: Time)
    requires StatusFits(cfg, s) && Enabled(cfg, s, w, now) && Advances(w) && s.migration.lastTransition <= now
    ensures var t := Persist(Apply(cfg, s, w, now));
            (InFlight(t.migration.stage) ==> t.migration.lastTransition <= now) &&
            |t.history| + Busy(t) == |s.history| + 1
  {
    WholeTwice(now);
    hide WholeSeconds, Prefix, PhaseForStage;
  }

  /** Progress: however the agents, the pods and the API answer, a migration that is visited often enough ends, and
      ends with exactly one more history record. */
  lemma {:induction false} MigrationFinishes(cfg: Config, s: Status, visits: seq<Visit>, from: Time, budget: Time)
    requires StatusFits(cfg, s) && InFlight(s.migration.stage) && s.migration.lastTransition <= from
    requires Spaced(from, visits, budget)
    ensures var t := AfterAll(cfg, s, visits);
            (InFlight(t.migration.stage) ==>
               |visits| + Fuel(t.migration) <= Fuel(s.migration) + Lingering(cfg, s, visits)) &&
            (!InFlight(t.migration.stage) ==> |t.history| == |s.history| + 1) &&
            (|visits| >= Fuel(s.migration) + Lingering(cfg, s, visits) ==> !InFlight(t.migration.stage))
    decreases |visits|
  {
    hide After, PhaseFits, TargetLingers, WholeSeconds;
    if visits != [] {
      var t := After(cfg, s, visits[0]);
      VisitStep(cfg, s, visits[0], from, budget);
      if InFlight(t.migration.stage) {
        MigrationFinishes(cfg, t, visits[1..], visits[0].now, budget);
      } else {
        Finished(cfg, t, visits[1..]);
      }
    }
  }

  /** A migration that has ended is not touched again by the stage handlers. */
  lemma {:induction false} Finished(cfg: Config, s: Status, visits: seq<Visit>)
    requires !InFlight(s.migration.stage)
    ensures AfterAll(cfg, s, visits) == s
    decreases |visits|
  {
    if visits != [] {
      Finished(cfg, s, visits[1..]);
    }
  }

  // ---------------------------------------------------------------- progress among other reconciles

  datatype Request = Request(spec: Spec, o: Outside, now: Time)

  /** The reconcile holds the newest copy of a migration in flight, has something to do, and its write arrives first. */
  predicate Landing(s: Status, q: Request) {
    InFlight(s.migration.stage) && q.o.lag == 0 && NetOf(q.o, 0).reaches && NetOf(q.o, 0).others == 0 &&
    !q.o.deleted && q.o.hasFinalizer && q.o.pods.Ok? && CurrentPod(q.o.pods.value).Some? &&
    TriesAt(s, Visit(q.spec, CurrentPod(q.o.pods.value).value, q.o, q.now)).Some?
  }

  lemma LandingBurns(cfg: Config, s: Status, q: Request)
    requires StatusFits(cfg, s) && Landing(s, q)
    ensures var t := After(cfg, s, Visit(q.spec, CurrentPod(q.o.pods.value).value, q.o, q.now));
            Fuel(t.migration) < Fuel(s.migration)
  {
    var pod := CurrentPod(q.o.pods.value).value;
    StageTriesPermitted(cfg, s, s.migration.stage, q.spec, pod, q.o, q.now, 0);
    hide StageTries, Apply, Enabled, CurrentPod;
    WriteBurnsFuel(cfg, s, TriesAt(s, Visit(q.spec, pod, q.o, q.now)).value, q.now);
  }

  predicate InOrder(from: Time, requests: seq<Request>) {
    (requests != [] ==> from <= requests[0].now) &&
    forall i :: 0 <= i < |requests| - 1 ==> requests[i].now <= requests[i + 1].now
  }
}
