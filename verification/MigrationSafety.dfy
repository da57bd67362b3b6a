/** What holds of every run of the migration machine, and of every run of the reconciler. */
module MigrationSafety {
  import opened Options
  import opened MigrationStatus
  import opened Reconciling
  import opened Text

  // ---------------------------------------------------------------- reachable statuses

  /** Phase is a sound summary of Stage: Running only when idle, Migrating only when not, and for
      a webhook-managed app Pending only when idle, so refreshing it to Running is harmless. A migration
      in flight shows as Migrating and a failed one as Failed, unless an initial pod was created meanwhile. */
  predicate PhaseFits(cfg: Config, s: Status) {
    (s.phase == Running ==> s.migration.stage == Idle) &&
    (s.phase == Migrating ==> s.migration.stage != Idle) &&
    (cfg.webhookManaged && s.phase in {Unset, Pending} ==> s.migration.stage == Idle) &&
    (InFlight(s.migration.stage) ==> s.phase == Migrating || (!cfg.webhookManaged && s.phase == Pending)) &&
    (IsTerminal(s.migration.stage) ==> s.phase == PhaseFailed || (!cfg.webhookManaged && s.phase == Pending))
  }

  /** An idle app carries nothing of an earlier migration; a busy one has its retry budget set
      and never exceeds it. */
  predicate RecordFits(m: MigrationInfo) {
    (m.stage == Idle ==>
      m == ZERO_INFO.(maxRetries := m.maxRetries) && (m.maxRetries == 0 || m.maxRetries == DEFAULT_MAX_RETRIES)) &&
    (m.stage != Idle ==> m.maxRetries == DEFAULT_MAX_RETRIES && 0 <= m.retryCount <= m.maxRetries) &&
    m.lastTransition == WholeSeconds(m.lastTransition) &&
    m.stage != PreCheckpointing
  }

  predicate StatusFits(cfg: Config, s: Status) {
    PhaseFits(cfg, s) && RecordFits(s.migration) && s.generation >= 0
  }

  lemma WriteKeepsPhase(cfg: Config, s: Status, w: Write, now: Time)
    requires Enabled(cfg, s, w, now) && StatusFits(cfg, s)
    ensures PhaseFits(cfg, Persist(Apply(cfg, s, w, now))) && Apply(cfg, s, w, now).generation >= 0
  {
    hide Prefix, Backoff, WholeSeconds;
  }

  lemma WriteKeepsRecord(cfg: Config, s: Status, w: Write, now: Time)
    requires Enabled(cfg, s, w, now) && StatusFits(cfg, s)
    ensures RecordFits(Persist(Apply(cfg, s, w, now)).migration)
  {
    WholeTwice(now);
    assert WholeSeconds(0) == 0;
    hide WholeSeconds, Prefix, PhaseForStage;
  }

  lemma {:induction false} EveryStatusFits(cfg: Config, log: seq<Entry>, k: nat)
    requires AtomicRun(cfg, log) && k < |log|
    ensures StatusFits(cfg, log[k].status)
  {
    if k > 0 {
      EveryStatusFits(cfg, log, k - 1);
      assert StepAt(cfg, log, k);
      WriteKeepsPhase(cfg, log[k - 1].status, log[k].write, log[k].now);
      WriteKeepsRecord(cfg, log[k - 1].status, log[k].write, log[k].now);
    }
  }

  // ---------------------------------------------------------------- conservation

  /** Migrations started among the first `k` accepted versions. */
  ghost function Starts(log: seq<Entry>, k: nat): nat
    requires k <= |log|
  {
    if k == 0 then 0 else Starts(log, k - 1) + if log[k - 1].write.Start? then 1 else 0
  }

  function Busy(s: Status): nat {
    if InFlight(s.migration.stage) then 1 else 0
  }

  lemma BusyStep(cfg: Config, log: seq<Entry>, k: nat)
    requires AtomicRun(cfg, log) && 0 < k < |log|
    ensures |log[k].status.history| + Busy(log[k].status)
            == |log[k - 1].status.history| + Busy(log[k - 1].status) + if log[k].write.Start? then 1 else 0
  {
    EveryStatusFits(cfg, log, k - 1);
    assert StepAt(cfg, log, k);
  }

  /** Every started migration is in flight or has exactly one history record. */
  lemma {:induction false} MigrationsConserved(cfg: Config, log: seq<Entry>, k: nat)
    requires AtomicRun(cfg, log) && k < |log|
    ensures Starts(log, k + 1) == |log[k].status.history| + Busy(log[k].status)
  {
    if k > 0 {
      MigrationsConserved(cfg, log, k - 1);
      BusyStep(cfg, log, k);
    } else {
      assert Starts(log, 1) == Starts(log, 0);
    }
  }

  function Successes(history: seq<Record>): nat {
    if history == [] then 0
    else Successes(history[..|history| - 1]) + if history[|history| - 1].success then 1 else 0
  }

  /** How much history there was when the initial pod was last created. */
  ghost function BaseLine(log: seq<Entry>, k: nat): nat
    requires k < |log|
  {
    if k == 0 then 0 else if log[k].write.InitialPod? then |log[k].status.history| else BaseLine(log, k - 1)
  }

  lemma HistoryGrows(cfg: Config, log: seq<Entry>, k: nat)
    requires AtomicRun(cfg, log) && 0 < k < |log|
    ensures log[k - 1].status.history <= log[k].status.history
    ensures log[k].write.Restored? ==>
              |log[k].status.history| == |log[k - 1].status.history| + 1 &&
              log[k].status.history[|log[k - 1].status.history|].success
    ensures !log[k].write.Restored? ==>
              log[k].status.history == log[k - 1].status.history ||
              (|log[k].status.history| == |log[k - 1].status.history| + 1 &&
               !log[k].status.history[|log[k - 1].status.history|].success)
    ensures log[k].status.generation ==
            if log[k].write.InitialPod? then 0
            else log[k - 1].status.generation + if log[k].write.Restored? then 1 else 0
    ensures log[k].write.InitialPod? ==> log[k].status.history == log[k - 1].status.history
  {
    hide Prefix, Backoff, PhaseForStage, WholeSeconds;
    assert StepAt(cfg, log, k);
  }

  /** Generation counts the successful migrations since the initial pod was last created. */
  lemma {:induction false} GenerationCounts(cfg: Config, log: seq<Entry>, k: nat)
    requires AtomicRun(cfg, log) && k < |log|
    ensures BaseLine(log, k) <= |log[k].status.history|
    ensures log[k].status.generation == Successes(log[k].status.history[BaseLine(log, k)..])
  {
    if k > 0 {
      GenerationCounts(cfg, log, k - 1);
      var before, after := log[k - 1], log[k];
      HistoryGrows(cfg, log, k);
      var old', new' := before.status.history[BaseLine(log, k - 1)..], after.status.history[BaseLine(log, k)..];
      if after.write.InitialPod? {
        assert new' == [];
      } else if after.status.history == before.status.history {
        assert new' == old';
      } else {
        assert new'[..|new'| - 1] == old';
      }
    }
  }

  // ---------------------------------------------------------------- termination and retry budget

  /** A write by a stage handler, other than starting or resetting a migration. */
  predicate Advances(w: Write) {
    w.Latch? || w.BeginDump? || w.DumpDone? || w.DumpFailed? || w.TargetUp? || w.RestoreBroke? || w.Restored? ||
    w.Retry? || w.GiveUp?
  }

  predicate Bounds(w: Write) {
    w.Start? || w.Reset?
  }

  function Rank(m: MigrationInfo): nat {
    match m.stage
    case Quiescing => if m.lastError == "" then 6 else 5
    case Dumping => 4
    case Uploaded => 3
    case Restoring => 2
    case RestoreFailed => 1
    case _ => 0
  }

  /** How many more handler writes a migration can make. */
  function Fuel(m: MigrationInfo): int {
    if InFlight(m.stage) then 3 * (m.maxRetries - m.retryCount) + Rank(m) else 0
  }

  /** How many more times a migration can enter Restoring. */
  function Attempts(m: MigrationInfo): int {
    if !InFlight(m.stage) then 0
    else m.maxRetries - m.retryCount + if m.stage in {Quiescing, Dumping, Uploaded} then 1 else 0
  }

  lemma WriteBurnsFuel(cfg: Config, s: Status, w: Write, now: Time)
    requires Enabled(cfg, s, w, now) && RecordFits(s.migration)
    ensures var m := Persist(Apply(cfg, s, w, now)).migration;
            (Advances(w) ==> Fuel(m) < Fuel(s.migration)) &&
            (!Bounds(w) ==> Fuel(m) <= Fuel(s.migration)) &&
            (w.Start? ==> Fuel(m) <= 3 * DEFAULT_MAX_RETRIES + 6)
  {
    hide Prefix, Backoff, PhaseForStage, WholeSeconds;
  }

  lemma WriteUsesAttempt(cfg: Config, s: Status, w: Write, now: Time)
    requires Enabled(cfg, s, w, now) && RecordFits(s.migration)
    ensures var m := Persist(Apply(cfg, s, w, now)).migration;
            (!Bounds(w) ==> Attempts(m) + (if w.TargetUp? then 1 else 0) <= Attempts(s.migration)) &&
            (w.Start? ==> Attempts(m) == m.maxRetries + 1 == DEFAULT_MAX_RETRIES + 1)
  {
    hide Prefix, Backoff, PhaseForStage, WholeSeconds;
  }

  /** Every handler write strictly burns fuel, entering Restoring uses up an attempt, and only
      starting a migration provides either. */
  lemma FuelBurns(cfg: Config, log: seq<Entry>, k: nat)
    requires AtomicRun(cfg, log) && 0 < k < |log|
    ensures var b, a := log[k - 1].status.migration, log[k].status.migration;
            0 <= Fuel(b) && 0 <= Attempts(b) &&
            (Advances(log[k].write) ==> Fuel(a) < Fuel(b)) &&
            (!Bounds(log[k].write) ==>
               Fuel(a) <= Fuel(b) && Attempts(a) + (if log[k].write.TargetUp? then 1 else 0) <= Attempts(b)) &&
            (log[k].write.Start? ==>
               Fuel(a) <= 3 * DEFAULT_MAX_RETRIES + 6 && Attempts(a) == a.maxRetries + 1 == DEFAULT_MAX_RETRIES + 1)
  {
    EveryStatusFits(cfg, log, k - 1);
    assert StepAt(cfg, log, k);
    WriteBurnsFuel(cfg, log[k - 1].status, log[k].write, log[k].now);
    WriteUsesAttempt(cfg, log[k - 1].status, log[k].write, log[k].now);
  }

  /** No migration is started or reset after version `i` up to version `k`. */
  ghost predicate SameMigration(log: seq<Entry>, i: nat, k: nat)
    requires i <= k < |log|
  {
    forall j :: i < j <= k ==> !Bounds(log[j].write)
  }

  ghost function AdvancesIn(log: seq<Entry>, i: nat, k: nat): nat
    requires i <= k < |log|
  {
    if k == i then 0 else AdvancesIn(log, i, k - 1) + if Advances(log[k].write) then 1 else 0
  }

  ghost function TargetsIn(log: seq<Entry>, i: nat, k: nat): nat
    requires i <= k < |log|
  {
    if k == i then 0 else TargetsIn(log, i, k - 1) + if log[k].write.TargetUp? then 1 else 0
  }

  lemma {:induction false} FuelBounds(cfg: Config, log: seq<Entry>, i: nat, k: nat)
    requires AtomicRun(cfg, log) && i <= k < |log| && SameMigration(log, i, k)
    ensures AdvancesIn(log, i, k) + Fuel(log[k].status.migration) <= Fuel(log[i].status.migration)
    ensures TargetsIn(log, i, k) + Attempts(log[k].status.migration) <= Attempts(log[i].status.migration)
    ensures Fuel(log[k].status.migration) >= 0 && Attempts(log[k].status.migration) >= 0
    decreases k - i
  {
    EveryStatusFits(cfg, log, k);
    if k > i {
      FuelBounds(cfg, log, i, k - 1);
      FuelBurns(cfg, log, k);
    }
  }

  /** While every version is in flight, it is one migration: nothing can start or reset it. */
  lemma InFlightIsOne(cfg: Config, log: seq<Entry>, i: nat, k: nat)
    requires AtomicRun(cfg, log) && i <= k < |log|
    requires forall j :: i <= j <= k ==> InFlight(log[j].status.migration.stage)
    ensures SameMigration(log, i, k)
  {
    forall j | i < j <= k
      ensures !Bounds(log[j].write)
    {
      assert StepAt(cfg, log, j) && InFlight(log[j - 1].status.migration.stage);
    }
  }

  /** Nothing raises the fuel of a migration in flight, whoever writes. */
  lemma FuelNeverRaised(cfg: Config, log: seq<Entry>, i: nat, k: nat)
    requires AtomicRun(cfg, log) && i <= k < |log|
    requires forall j :: i <= j <= k ==> InFlight(log[j].status.migration.stage)
    ensures 0 < Fuel(log[k].status.migration) <= Fuel(log[i].status.migration)
  {
    InFlightIsOne(cfg, log, i, k);
    FuelBounds(cfg, log, i, k);
    EveryStatusFits(cfg, log, k);
  }

  /** A migration makes at most 3 * 3 + 6 handler writes and enters Restoring at most 4 times. */
  lemma MigrationTerminates(cfg: Config, log: seq<Entry>, i: nat, k: nat)
    requires AtomicRun(cfg, log) && 0 < i <= k < |log| && log[i].write.Start? && SameMigration(log, i, k)
    ensures AdvancesIn(log, i, k) <= 3 * DEFAULT_MAX_RETRIES + 6
    ensures TargetsIn(log, i, k) <= DEFAULT_MAX_RETRIES + 1
    ensures log[k].status.migration.retryCount <= DEFAULT_MAX_RETRIES
  {
    FuelBounds(cfg, log, i, k);
    EveryStatusFits(cfg, log, k);
    FuelBurns(cfg, log, i);
  }

  // ---------------------------------------------------------------- one dump per migration

  predicate PreDump(stage: Stage) {
    stage == Quiescing || stage == Dumping
  }

  lemma {:induction false} StartsGrow(log: seq<Entry>, i: nat, k: nat)
    requires i <= k <= |log|
    ensures Starts(log, i) <= Starts(log, k)
    ensures Starts(log, i) == Starts(log, k) ==> forall j :: i <= j < k ==> !log[j].write.Start?
    decreases k - i
  {
    if i < k {
      StartsGrow(log, i, k - 1);
    }
  }

  /** Once past its dump, a migration does not come back to it. */
  lemma {:induction false} PastDump(cfg: Config, log: seq<Entry>, i: nat, k: nat)
    requires AtomicRun(cfg, log) && i <= k < |log|
    requires !PreDump(log[i].status.migration.stage)
    requires forall j :: i < j <= k ==> !log[j].write.Start?
    ensures !PreDump(log[k].status.migration.stage)
    decreases k - i
  {
    if i < k {
      PastDump(cfg, log, i, k - 1);
      assert StepAt(cfg, log, k);
    }
  }

  /** The dump accepted for the migration that version `k` belongs to. */
  ghost function AcceptedDump(log: seq<Entry>, k: nat): (r: Option<nat>)
    requires k < |log|
    ensures r.Some? ==> r.value <= k && log[r.value].write.DumpDone?
  {
    if log[k].write.Start? then None
    else if log[k].write.DumpDone? then Some(k)
    else if k == 0 then None
    else AcceptedDump(log, k - 1)
  }

  predicate SameDump(a: MigrationInfo, b: MigrationInfo) {
    a.dumpId == b.dumpId && a.s3Prefix == b.s3Prefix && a.pipeInodes == b.pipeInodes &&
    a.pageServerAddr == b.pageServerAddr && a.pageServerPort == b.pageServerPort
  }

  predicate PostDump(stage: Stage) {
    stage == Uploaded || stage == Restoring || stage == RestoreFailed
  }

  /** The record holds the dump of the write: its id and pipe inodes, the directory the agent uploads to, which is
      app/generation/node/id, and the address the target dials back to, if there is one. */
  predicate Stores(cfg: Config, before: Status, w: Write, m: MigrationInfo)
    requires w.DumpDone?
  {
    m.dumpId == w.dump.id && m.pipeInodes == w.dump.pipeInodes &&
    m.s3Prefix == cfg.app + "/" + DecimalInt(before.generation) + "/" + w.node + "/" + w.dump.id &&
    (match w.dialBack
     case Some(addr) => m.pageServerAddr == addr && m.pageServerPort == 9999
     case None => m.pageServerAddr == "" && m.pageServerPort == 0)
  }

  /** For names without a slash the stored directory has exactly these four parts. */
  lemma StoredDirectory(cfg: Config, before: Status, w: Write, m: MigrationInfo)
    requires w.DumpDone? && Stores(cfg, before, w, m)
    requires !Contains(cfg.app, '/') && !Contains(w.node, '/') && !Contains(w.dump.id, '/')
    ensures Split(m.s3Prefix, "/") == [cfg.app, DecimalInt(before.generation), w.node, w.dump.id]
    ensures before.generation >= 0 ==> NumberOf(Split(m.s3Prefix, "/")[1]) == before.generation
  {
    DecimalSign(before.generation);
    SplitFour(cfg.app, DecimalInt(before.generation), w.node, w.dump.id);
    if before.generation >= 0 {
      DecimalReads(before.generation);
    }
    hide Split, NumberOf, Decimal;
  }

  /** What one accepted write does around the dump. */
  lemma DumpStep(cfg: Config, log: seq<Entry>, k: nat)
    requires AtomicRun(cfg, log) && 0 < k < |log|
    ensures log[k].write.DumpDone? ==>
              log[k - 1].status.migration.stage == Dumping && log[k].status.migration.stage == Uploaded &&
              Stores(cfg, log[k - 1].status, log[k].write, log[k].status.migration)
    ensures log[k].write.DumpFailed? ==>
              log[k - 1].status.migration.stage == Dumping && log[k].status.migration.stage == FinalDumpFailed
    ensures PostDump(log[k].status.migration.stage) && !log[k].write.DumpDone? ==>
              !log[k].write.Start? && PostDump(log[k - 1].status.migration.stage) &&
              SameDump(log[k - 1].status.migration, log[k].status.migration)
  {
    hide Backoff, PhaseForStage, WholeSeconds, DecimalInt;
    assert StepAt(cfg, log, k);
  }

  /** From Uploaded on, a migration's record carries the dump that was accepted for it. */
  lemma {:induction false} RecordCarriesDump(cfg: Config, log: seq<Entry>, k: nat)
    requires AtomicRun(cfg, log) && k < |log|
    requires PostDump(log[k].status.migration.stage)
    ensures AcceptedDump(log, k).Some?
    ensures var j := AcceptedDump(log, k).value;
            j > 0 && SameDump(log[k].status.migration, log[j].status.migration) &&
            Stores(cfg, log[j - 1].status, log[j].write, log[k].status.migration)
  {
    assert k > 0;
    DumpStep(cfg, log, k);
    hide DecimalInt;
    if !log[k].write.DumpDone? {
      RecordCarriesDump(cfg, log, k - 1);
    }
  }

  /** Once a dump is reported, good or bad, its migration is past its dump for good. */
  lemma ReportEndsDumping(cfg: Config, log: seq<Entry>, j: nat, k: nat)
    requires AtomicRun(cfg, log) && j <= k < |log| && (log[j].write.DumpDone? || log[j].write.DumpFailed?)
    requires Starts(log, j + 1) == Starts(log, k + 1)
    ensures !PreDump(log[k].status.migration.stage)
  {
    DumpStep(cfg, log, j);
    StartsGrow(log, j + 1, k + 1);
    PastDump(cfg, log, j, k);
  }

  /** Two accepted dumps belong to two different migrations. */
  lemma OneDumpPerMigration(cfg: Config, log: seq<Entry>, i: nat, k: nat)
    requires AtomicRun(cfg, log) && i < k < |log| && log[i].write.DumpDone? && log[k].write.DumpDone?
    ensures Starts(log, i + 1) < Starts(log, k + 1)
  {
    StartsGrow(log, i + 1, k + 1);
    StartsGrow(log, i + 1, k);
    DumpStep(cfg, log, k);
    if Starts(log, i + 1) == Starts(log, k) {
      ReportEndsDumping(cfg, log, i, k - 1);
    }
  }

  /** The record a call was decided from carries a dump: it was accepted for that migration, and it is the answer of
      a FinalDump call. */
  ghost predicate CarriesAccepted(cfg: Config, w: World, snapshot: nat, m: MigrationInfo) {
    snapshot < |w.log| && AcceptedDump(w.log, snapshot).Some? &&
    var j := AcceptedDump(w.log, snapshot).value;
    var e := w.log[j];
    j > 0 && Stores(cfg, w.log[j - 1].status, e.write, m) &&
    e.write.call < |w.calls| && w.calls[e.write.call].FinalDump? && w.calls[e.write.call].answer == Dumped(e.write.dump)
  }

  lemma SnapshotCarries(cfg: Config, steps: seq<Step>, k: nat)
    requires Legal(cfg, steps) && k < |Exec(cfg, steps).log| && PostDump(Exec(cfg, steps).log[k].status.migration.stage)
    ensures CarriesAccepted(cfg, Exec(cfg, steps), k, Exec(cfg, steps).log[k].status.migration)
  {
    hide Legal, Exec, DecimalInt, PostDump;
    Refinement(cfg, steps);
    var w := Exec(cfg, steps);
    RecordCarriesDump(cfg, w.log, k);
    var j := AcceptedDump(w.log, k).value;
    assert Reports(w.log[j].write, w.log[j].write.call);
    assert ReportFits(w.log, w.calls, j, w.log[j].write.call);
  }

  /** Every Restore RPC, from whatever copy it was issued, names the dump accepted for the migration that copy belongs
      to: its id, its inodes, the directory it was uploaded to and the address to dial back. */
  lemma RestoreUsesAcceptedDump(cfg: Config, steps: seq<Step>, i: nat)
    requires Legal(cfg, steps) && i < |Exec(cfg, steps).calls| && Exec(cfg, steps).calls[i].RestoreRpc?
    ensures var w := Exec(cfg, steps);
            var c := w.calls[i];
            c.snapshot < |w.log| && AcceptedDump(w.log, c.snapshot).Some? &&
            var j := AcceptedDump(w.log, c.snapshot).value;
            var e := w.log[j];
            j > 0 && c.dumpId == e.write.dump.id && c.pipeInodes == e.write.dump.pipeInodes &&
            c.s3Prefix ==
            cfg.app + "/" + DecimalInt(w.log[j - 1].status.generation) + "/" + e.write.node + "/" + c.dumpId &&
            c.addr == (if e.write.dialBack.Some? then e.write.dialBack.value else "") &&
            e.write.call < |w.calls| && w.calls[e.write.call].FinalDump? &&
            w.calls[e.write.call].answer == Dumped(e.write.dump)
  {
    hide Legal, Exec, DecimalInt, AcceptedDump;
    Refinement(cfg, steps);
    var w := Exec(cfg, steps);
    assert Explained(w.log, w.calls[i]);
    SnapshotCarries(cfg, steps, w.calls[i].snapshot);
  }

  /** Every target pod that is created names the same dump, the node the migration started on, and the generation that
      its success will have. */
  lemma TargetCarriesAcceptedDump(cfg: Config, steps: seq<Step>, i: nat)
    requires Legal(cfg, steps) && i < |Exec(cfg, steps).calls| && Exec(cfg, steps).calls[i].CreateTarget?
    ensures var w := Exec(cfg, steps);
            var c := w.calls[i];
            c.snapshot < |w.log| && AcceptedDump(w.log, c.snapshot).Some? &&
            var j := AcceptedDump(w.log, c.snapshot).value;
            var e := w.log[j];
            j > 0 && c.dumpId == e.write.dump.id &&
            c.s3Prefix ==
            cfg.app + "/" + DecimalInt(w.log[j - 1].status.generation) + "/" + e.write.node + "/" + c.dumpId &&
            c.addr == (if e.write.dialBack.Some? then e.write.dialBack.value else "") &&
            c.generation == w.log[c.snapshot].status.generation + 1 &&
            StartBefore(w.log, c.snapshot).Some? &&
            c.previousNode == w.log[StartBefore(w.log, c.snapshot).value].write.node
  {
    hide Legal, Exec, DecimalInt, AcceptedDump, StartBefore;
    Refinement(cfg, steps);
    var w := Exec(cfg, steps);
    assert Explained(w.log, w.calls[i]);
    SnapshotCarries(cfg, steps, w.calls[i].snapshot);
    RecordRemembersStart(cfg, w.log, w.calls[i].snapshot);
  }

  // ---------------------------------------------------------------- what the record and the history tell

  /** The start of the migration that version `k` belongs to. */
  ghost function StartBefore(log: seq<Entry>, k: nat): (r: Option<nat>)
    requires k < |log|
    ensures r.Some? ==> r.value <= k && log[r.value].write.Start?
  {
    if log[k].write.Start? then Some(k) else if k == 0 then None else StartBefore(log, k - 1)
  }

  /** What one accepted write does to the story of a migration. */
  lemma StoryStep(cfg: Config, log: seq<Entry>, k: nat)
    requires AtomicRun(cfg, log) && 0 < k < |log|
    ensures var b, a := log[k - 1].status.migration, log[k].status.migration;
            (log[k].write.Start? ==> a.previousNode == log[k].write.node && a.reason == log[k].write.why) &&
            (InFlight(a.stage) && !log[k].write.Start? ==>
               InFlight(b.stage) && a.previousNode == b.previousNode && a.reason == b.reason) &&
            (log[k].write.TargetUp? ==> a.stage == Restoring && a.targetPod == log[k].write.pod) &&
            (a.stage == Restoring && !log[k].write.TargetUp? ==> b.stage == Restoring && a.targetPod == b.targetPod)
  {
    hide Prefix, Backoff, PhaseForStage, WholeSeconds;
    assert StepAt(cfg, log, k);
  }

  /** While a migration is in flight its record names the node it started on and why. */
  lemma {:induction false} RecordRemembersStart(cfg: Config, log: seq<Entry>, k: nat)
    requires AtomicRun(cfg, log) && k < |log| && InFlight(log[k].status.migration.stage)
    ensures StartBefore(log, k).Some?
    ensures var start := log[StartBefore(log, k).value].write;
            log[k].status.migration.previousNode == start.node && log[k].status.migration.reason == start.why
  {
    assert k > 0;
    StoryStep(cfg, log, k);
    if !log[k].write.Start? {
      RecordRemembersStart(cfg, log, k - 1);
    }
  }

  /** While a migration is restoring, its record names the pod that a create call brought up. */
  lemma {:induction false} RecordNamesTarget(cfg: Config, steps: seq<Step>, k: nat) returns (j: nat)
    requires Legal(cfg, steps) && k < |Exec(cfg, steps).log|
    requires Exec(cfg, steps).log[k].status.migration.stage == Restoring
    ensures j <= k && Exec(cfg, steps).log[j].write.TargetUp?
    ensures var w := Exec(cfg, steps);
            var x := w.log[j].write;
            w.log[k].status.migration.targetPod == x.pod && x.call < |w.calls| && w.calls[x.call].CreateTarget? &&
            w.calls[x.call].up == Some(x.pod) && w.calls[x.call].at <= j
    decreases k
  {
    hide Legal, Exec, AtomicRun;
    Refinement(cfg, steps);
    var w := Exec(cfg, steps);
    FirstIsIdle(cfg, w.log);
    StoryStep(cfg, w.log, k);
    if w.log[k].write.TargetUp? {
      j := k;
      assert Reports(w.log[j].write, w.log[j].write.call);
      assert ReportFits(w.log, w.calls, j, w.log[j].write.call);
    } else {
      j := RecordNamesTarget(cfg, steps, k - 1);
    }
  }

  lemma FirstIsIdle(cfg: Config, log: seq<Entry>)
    requires AtomicRun(cfg, log)
    ensures log[0].status.migration.stage == Idle
  {
  }

  /** The history record that version `k` appended, if any, tells the migration it ends: where it started and why, how
      it ended, and on success where the app runs now. */
  lemma HistoryTells(cfg: Config, log: seq<Entry>, k: nat)
    requires AtomicRun(cfg, log) && 0 < k < |log| && |log[k].status.history| > |log[k - 1].status.history|
    ensures |log[k].status.history| == |log[k - 1].status.history| + 1 && StartBefore(log, k - 1).Some?
    ensures var r := log[k].status.history[|log[k].status.history| - 1];
            var start, x, s := log[StartBefore(log, k - 1).value].write, log[k].write, log[k].status;
            r.fromNode == start.node && r.timestamp == log[k].now && (r.success <==> x.Restored?) &&
            (r.success ==> r.reason == start.why && r.toNode == x.node && s.currentNode == x.node &&
                           s.currentPod == x.pod && s.phase == Running && s.checkpoint.chainDepth == 1) &&
            (!r.success ==> r.reason == "migration-failed" && r.toNode == "" && IsTerminal(s.migration.stage))
    ensures var r, m := log[k].status.history[|log[k].status.history| - 1], log[k - 1].status.migration;
            (log[k].write.Restored? ==> r.message == Completed(log[k].now - m.lastTransition, m.retryCount)) &&
            (log[k].write.DumpFailed? ==> r.message == DumpError(log[k].write.err)) &&
            (log[k].write.GiveUp? ==> r.message == Exhausted(m.retryCount, m.lastError))
  {
    hide Prefix, Backoff, WholeSeconds, StartBefore;
    assert StepAt(cfg, log, k);
    EveryStatusFits(cfg, log, k - 1);
    RecordRemembersStart(cfg, log, k - 1);
  }

  /** Every success record was appended by one accepted write, which reports a Restore call of its own: made before it
      and answered without error. */
  lemma {:induction false} SuccessWasRestored(cfg: Config, steps: seq<Step>, k: nat, h: nat) returns (j: nat)
    requires Legal(cfg, steps) && k < |Exec(cfg, steps).log| && h < |Exec(cfg, steps).log[k].status.history|
    requires Exec(cfg, steps).log[k].status.history[h].success
    ensures 0 < j <= k && Exec(cfg, steps).log[j].write.Restored?
    ensures var w := Exec(cfg, steps);
            var a := w.log[j].write.call;
            |w.log[j - 1].status.history| == h && a < |w.calls| && w.calls[a].RestoreRpc? && w.calls[a].at <= j &&
            w.calls[a].error == None && forall i :: 0 <= i < |w.log| && i != j ==> !Reports(w.log[i].write, a)
    decreases k
  {
    hide Legal, Exec, AtomicRun;
    Refinement(cfg, steps);
    var w := Exec(cfg, steps);
    NoHistoryAtFirst(cfg, w.log);
    HistoryGrows(cfg, w.log, k);
    if h < |w.log[k - 1].status.history| {
      j := SuccessWasRestored(cfg, steps, k - 1, h);
    } else {
      j := k;
      assert Reports(w.log[j].write, w.log[j].write.call);
      assert ReportFits(w.log, w.calls, j, w.log[j].write.call);
    }
  }

  lemma NoHistoryAtFirst(cfg: Config, log: seq<Entry>)
    requires AtomicRun(cfg, log)
    ensures log[0].status.history == []
  {
  }

  /** How long each retry has waited since the failure before it: nothing, two seconds, then five. */
  lemma RetryWaits(cfg: Config, log: seq<Entry>, k: nat)
    requires AtomicRun(cfg, log) && 0 < k < |log| && log[k].write.Retry?
    ensures var m := log[k - 1].status.migration;
            var waited := log[k].now - m.lastTransition;
            (m.retryCount == 1 ==> waited >= 2 * SECOND) && (m.retryCount == 2 ==> waited >= 5 * SECOND) &&
            0 <= m.retryCount <= 2
  {
    hide WholeSeconds, Prefix;
    assert StepAt(cfg, log, k);
    EveryStatusFits(cfg, log, k - 1);
  }

  // ---------------------------------------------------------------- no dump storm

  /** A guarded FinalDump is issued in a migration that already had one only if the report of
      the earlier call was never accepted. */
  lemma NoDumpStorm(cfg: Config, steps: seq<Step>, a: nat, b: nat, j: nat)
    requires Legal(cfg, steps)
    requires var w := Exec(cfg, steps);
             a < b < |w.calls| && w.calls[a].FinalDump? && w.calls[b].FinalDump? && w.calls[b].guarded &&
             w.calls[a].at <= |w.log| && w.calls[b].at <= |w.log| &&
             Starts(w.log, w.calls[a].at) == Starts(w.log, w.calls[b].at) && j < |w.log|
    ensures !Reports(Exec(cfg, steps).log[j].write, a)
  {
    hide Legal, Exec, AtomicRun;
    Refinement(cfg, steps);
    var w := Exec(cfg, steps);
    assert Explained(w.log, w.calls[b]);
    if Reports(w.log[j].write, a) {
      assert ReportFits(w.log, w.calls, j, a);
      StartsGrow(w.log, w.calls[a].at, j + 1);
      StartsGrow(w.log, j + 1, w.calls[b].at);
      ReportEndsDumping(cfg, w.log, j, w.calls[b].at - 1);
    }
  }

  /** A migration that has just started. */
  lemma Started(cfg: Config) returns (steps: seq<Step>)
    ensures Legal(cfg, steps)
    ensures var w := Exec(cfg, steps);
            |w.log| == 2 && w.calls == [] && w.log[1].write.Start? && w.log[1].status.migration.stage == Dumping &&
            w.session == On(1, w.log[1].status, None)
  {
    hide WholeSeconds, Prefix;
    var x := Start("node", "manual", false);
    Extend(cfg, [], Fetch(0));
    steps := [] + [Fetch(0)];
    Extend(cfg, steps, Put(x, true));
    steps := steps + [Put(x, true)];
  }

  /** A migration whose dump succeeded and was recorded. */
  lemma DumpRecorded(cfg: Config) returns (steps: seq<Step>)
    ensures Legal(cfg, steps)
    ensures var w := Exec(cfg, steps);
            |w.log| == 3 && |w.calls| == 1 && w.calls[0].FinalDump? && w.calls[0].at == 2 &&
            w.log[1].status.migration.stage == Dumping && Reports(w.log[2].write, 0) &&
            w.log[1].write.Start? && !w.log[2].write.Start?
  {
    hide WholeSeconds, Prefix;
    var before := Started(cfg);
    var dump := Dump("d", map[]);
    var call, x := Issue(FinalDump(1, 2, true, Dumped(dump))), DumpDone(0, dump, "node", None);
    Extend(cfg, before, call);
    var called := before + [call];
    Extend(cfg, called, Put(x, true));
    steps := called + [Put(x, true)];
  }

  /** The uncached guard is what makes it so: without it a copy that still says Dumping
      repeats a dump whose success was already accepted. */
  lemma UnguardedDumpRepeats(cfg: Config) returns (steps: seq<Step>)
    ensures Legal(cfg, steps)
    ensures var w := Exec(cfg, steps);
            |w.calls| == 2 && w.calls[0].FinalDump? && w.calls[1].FinalDump? && !w.calls[1].guarded &&
            w.calls[0].at == 2 && w.calls[1].at == |w.log| == 3 && Reports(w.log[2].write, 0) &&
            Starts(w.log, 2) == Starts(w.log, 3)
  {
    var before := DumpRecorded(cfg);
    Extend(cfg, before, Fetch(1));
    var reread := before + [Fetch(1)];
    var again := Issue(FinalDump(1, 3, false, Refused("gone")));
    Extend(cfg, reread, again);
    steps := reread + [again];
    var log := Exec(cfg, steps).log;
    assert Starts(log, 3) == Starts(log, 2);
  }

  lemma {:induction false} TerminalStays(cfg: Config, log: seq<Entry>, i: nat, k: nat)
    requires AtomicRun(cfg, log) && i <= k < |log| && IsTerminal(log[i].status.migration.stage)
    requires forall j :: i < j <= k ==> !log[j].write.Reset?
    ensures log[k].status.migration.stage == log[i].status.migration.stage
    decreases k - i
  {
    if i < k {
      TerminalStays(cfg, log, i, k - 1);
      assert StepAt(cfg, log, k);
    }
  }

  /** After a terminal stage, no guarded dump or target pod before an accepted retry reset. */
  lemma TerminalNeedsReset(cfg: Config, steps: seq<Step>, k: nat, i: nat) returns (r: nat)
    requires Legal(cfg, steps)
    requires var w := Exec(cfg, steps);
             k < |w.log| && IsTerminal(w.log[k].status.migration.stage) && i < |w.calls| &&
             !w.calls[i].RestoreRpc? && w.calls[i].guarded && k < w.calls[i].at
    ensures var w := Exec(cfg, steps);
            k < r < w.calls[i].at && r < |w.log| && w.log[r].write.Reset?
  {
    Refinement(cfg, steps);
    var w := Exec(cfg, steps);
    assert Explained(w.log, w.calls[i]);
    var last := w.calls[i].at - 1;
    if forall j :: k < j <= last ==> !w.log[j].write.Reset? {
      TerminalStays(cfg, w.log, k, last);
      assert false;
    }
    r :| k < r <= last && w.log[r].write.Reset?;
  }

  // ---------------------------------------------------------------- waiting

  /** How one accepted write within a migration moves the stored clock stamp of the record. */
  lemma StampStep(cfg: Config, log: seq<Entry>, k: nat)
    requires AtomicRun(cfg, log) && 0 < k < |log|
    ensures var b, a, stamp := log[k - 1].status.migration, log[k].status.migration, WholeSeconds(log[k].now);
            log[k - 1].now <= log[k].now &&
            (log[k].write.Start? ==> InFlight(a.stage) && a.retryCount == 0 && a.lastTransition == stamp &&
                                     a.lastError == "") &&
            (InFlight(a.stage) && !log[k].write.Start? ==>
               InFlight(b.stage) && (a.lastTransition == b.lastTransition || a.lastTransition == stamp) &&
               a.retryCount == b.retryCount + (if log[k].write.Retry? then 1 else 0)) &&
            (log[k].write.Retry? ==> InFlight(b.stage) && log[k].now >= b.lastTransition + Backoff(b.retryCount) &&
                                     a.lastTransition == stamp) &&
            (a.stage == Quiescing && !log[k].write.Start? ==>
               b.stage == Quiescing &&
               if log[k].write.Latch?
               then b.lastError == "" && a.lastError != "" && a.lastTransition == stamp &&
                    log[k].now < b.lastTransition + log[k].write.budget
               else a.lastTransition == b.lastTransition && a.lastError == b.lastError)
  {
    EveryStatusFits(cfg, log, k - 1);
    assert StepAt(cfg, log, k);
    hide Prefix, PhaseForStage, WholeSeconds, PhaseFits;
  }

  /** While a migration is quiescing, its stored transition time is at most one drain budget after entry. */
  lemma {:induction false} QuiesceStamp(cfg: Config, log: seq<Entry>, i: nat, k: nat, budget: Time)
    requires AtomicRun(cfg, log) && 0 < i <= k < |log| && log[i].write.Start? && SameMigration(log, i, k)
    requires budget >= 0 && forall j :: i < j <= k && log[j].write.Latch? ==> log[j].write.budget <= budget
    requires log[k].status.migration.stage == Quiescing
    ensures log[k].status.migration.lastTransition <= log[i].now + budget
    ensures log[k].status.migration.lastError == "" ==>
              log[k].status.migration.lastTransition == WholeSeconds(log[i].now)
    decreases k - i
  {
    StampStep(cfg, log, k);
    WholeTwice(log[k].now);
    if i < k {
      WholeTwice(log[i].now);
      assert !Bounds(log[k].write);
      QuiesceStamp(cfg, log, i, k - 1, budget);
    }
  }

  function TotalBackoff(retries: nat): Time {
    if retries == 0 then 0 else TotalBackoff(retries - 1) + Backoff(retries - 1)
  }

  /** Waiting a whole number of seconds counted from a stored time ends no earlier on the stored clock. */
  lemma StoredWait(t: Time, stored: Time, wait: Time)
    requires stored == WholeSeconds(stored) && wait == WholeSeconds(wait) && t >= stored + wait
    ensures WholeSeconds(t) >= stored + wait
  {
  }

  lemma BackoffIsWhole(retries: int)
    ensures Backoff(retries) == WholeSeconds(Backoff(retries))
  {
  }

  /** A migration that has retried r times has lasted at least the sum of the first r backoffs on the stored clock. */
  lemma {:induction false} BackoffRespected(cfg: Config, log: seq<Entry>, i: nat, k: nat)
    requires AtomicRun(cfg, log) && 0 < i <= k < |log| && log[i].write.Start? && SameMigration(log, i, k)
    requires InFlight(log[k].status.migration.stage)
    ensures 0 <= log[k].status.migration.retryCount
    ensures WholeSeconds(log[i].now) + TotalBackoff(log[k].status.migration.retryCount)
            <= log[k].status.migration.lastTransition <= WholeSeconds(log[k].now)
    decreases k - i
  {
    StampStep(cfg, log, k);
    if i < k {
      assert !Bounds(log[k].write);
      BackoffRespected(cfg, log, i, k - 1);
      LaterStored(log[k - 1].now, log[k].now);
      if log[k].write.Retry? {
        var b := log[k - 1].status.migration;
        EveryStatusFits(cfg, log, k - 1);
        BackoffIsWhole(b.retryCount);
        StoredWait(log[k].now, b.lastTransition, Backoff(b.retryCount));
      }
      hide WholeSeconds;
    }
  }

  lemma LaterStored(t: Time, u: Time)
    requires t <= u
    ensures WholeSeconds(t) <= WholeSeconds(u)
  {
  }

  /** Giving up costs seven seconds on the stored clock, which is more than six seconds of real time. */
  lemma GivingUpTakesSevenSeconds(cfg: Config, log: seq<Entry>, i: nat, k: nat)
    requires AtomicRun(cfg, log) && 0 < i < k < |log| && log[i].write.Start? && SameMigration(log, i, k)
    requires log[k].write.GiveUp?
    ensures WholeSeconds(log[k].now) - WholeSeconds(log[i].now) >= 7 * SECOND
    ensures log[k].now - log[i].now > 6 * SECOND
  {
    assert StepAt(cfg, log, k);
    BackoffRespected(cfg, log, i, k - 1);
    EveryStatusFits(cfg, log, k - 1);
    assert TotalBackoff(3) == TotalBackoff(2) + Backoff(2);
    assert TotalBackoff(2) == TotalBackoff(1) + Backoff(1);
    LaterStored(log[k - 1].now, log[k].now);
    WholeTwice(log[k].now);
    WholeTwice(log[i].now);
    hide WholeSeconds;
  }

  /** The promised seven seconds are met in real time if and only if the stored times differ by eight, or giving up
      falls no earlier within its second than the start did. */
  lemma SevenSecondsIff(cfg: Config, log: seq<Entry>, i: nat, k: nat)
    requires AtomicRun(cfg, log) && 0 < i < k < |log| && log[i].write.Start? && SameMigration(log, i, k)
    requires log[k].write.GiveUp?
    ensures var start, end := log[i].now, log[k].now;
            end - start >= 7 * SECOND <==>
            WholeSeconds(end) - WholeSeconds(start) >= 8 * SECOND ||
            end - WholeSeconds(end) >= start - WholeSeconds(start)
  {
    GivingUpTakesSevenSeconds(cfg, log, i, k);
    WholeTwice(log[i].now);
    WholeTwice(log[k].now);
    SecondsApart(log[i].now, log[k].now);
    hide WholeSeconds, AtomicRun;
  }

  lemma SecondsApart(t: Time, u: Time)
    ensures WholeSeconds(u) - WholeSeconds(t) > 7 * SECOND ==> WholeSeconds(u) - WholeSeconds(t) >= 8 * SECOND
  {
  }

  // A run in which it takes 6.001 seconds.

  /** The newest version of a run with one more accepted write. */
  lemma Accept(cfg: Config, log: seq<Entry>, w: Write, now: Time) returns (longer: seq<Entry>)
    requires AtomicRun(cfg, log) && !w.Metadata? && log[|log| - 1].now <= now
    requires Enabled(cfg, log[|log| - 1].status, w, now)
    ensures AtomicRun(cfg, longer) && |longer| == |log| + 1 && log <= longer
    ensures longer[|log|] == Entry(Persist(Apply(cfg, log[|log| - 1].status, w, now)), w, now)
  {
    var e := Entry(Persist(Apply(cfg, log[|log| - 1].status, w, now)), w, now);
    longer := log + [e];
    forall k | 0 < k < |longer|
      ensures StepAt(cfg, longer, k)
    {
      if k < |log| {
        assert StepAt(cfg, log, k);
      }
    }
  }

  /** Where a migration is: stage, retries and stored stamp. */
  ghost predicate IsAt(e: Entry, stage: Stage, retries: nat, stamp: Time, now: Time) {
    var m := e.status.migration;
    m.stage == stage && m.retryCount == retries && m.maxRetries == DEFAULT_MAX_RETRIES && m.lastTransition == stamp &&
    e.now == now
  }

  /** A restore attempt fails. */
  lemma Breaks(cfg: Config, log: seq<Entry>, retries: nat, stamp: Time, before: Time, now: Time)
    returns (longer: seq<Entry>)
    requires AtomicRun(cfg, log) && IsAt(log[|log| - 1], Uploaded, retries, stamp, before) && before <= now
    ensures AtomicRun(cfg, longer) && |longer| == |log| + 1 && log <= longer && longer[|log|].write.RestoreBroke?
    ensures IsAt(longer[|log|], RestoreFailed, retries, WholeSeconds(now), now)
  {
    longer := Accept(cfg, log, RestoreBroke("no"), now);
  }

  /** The backoff is over and the next attempt begins. */
  lemma Retries(cfg: Config, log: seq<Entry>, retries: nat, stamp: Time, before: Time, now: Time)
    returns (longer: seq<Entry>)
    requires AtomicRun(cfg, log) && IsAt(log[|log| - 1], RestoreFailed, retries, stamp, before) && before <= now
    requires retries < DEFAULT_MAX_RETRIES && now >= stamp + Backoff(retries)
    ensures AtomicRun(cfg, longer) && |longer| == |log| + 1 && log <= longer && longer[|log|].write.Retry?
    ensures IsAt(longer[|log|], Uploaded, retries + 1, WholeSeconds(now), now)
  {
    longer := Accept(cfg, log, Retry, now);
  }

  /** A migration whose dump is uploaded in the instant in which it starts. */
  lemma UploadedAtOnce(cfg: Config, now: Time) returns (log: seq<Entry>)
    requires now >= 0
    ensures AtomicRun(cfg, log) && |log| == 3 && log[1].write.Start? && log[1].now == now && log[2].write.DumpDone?
    ensures IsAt(log[2], Uploaded, 0, WholeSeconds(now), now)
  {
    hide WholeSeconds, Prefix;
    log := [Entry(INITIAL_STATUS, Metadata, 0)];
    log := Accept(cfg, log, Start("node", "manual", false), now);
    log := Accept(cfg, log, DumpDone(0, Dump("d", map[]), "node", None), now);
  }

  /** Three attempts, with the waits cut short by the stored clock. */
  lemma ThreeAttempts(cfg: Config, t: Time, two: Time, seven: Time) returns (log: seq<Entry>)
    requires t == 999_000_000 && two == 2 * SECOND && seven == 7 * SECOND
    ensures AtomicRun(cfg, log) && |log| == 10 && log[1].write.Start? && log[1].now == t
    ensures SameMigration(log, 1, 9) && IsAt(log[9], RestoreFailed, 3, seven, seven)
  {
    assert WholeSeconds(t) == 0 && WholeSeconds(two) == two && WholeSeconds(seven) == seven;
    hide WholeSeconds, AtomicRun, IsAt;
    log := UploadedAtOnce(cfg, t);
    log := Breaks(cfg, log, 0, 0, t, t);
    log := Retries(cfg, log, 0, 0, t, t);
    log := Breaks(cfg, log, 1, 0, t, t);
    log := Retries(cfg, log, 1, 0, t, two);
    log := Breaks(cfg, log, 2, two, two, two);
    log := Retries(cfg, log, 2, two, two, seven);
    log := Breaks(cfg, log, 3, seven, seven, seven);
  }

  /** A migration that starts at 0.999 s and gives up at 7 s. */
  lemma QuickGiveUp(cfg: Config) returns (log: seq<Entry>)
    ensures AtomicRun(cfg, log) && |log| == 11 && log[1].write.Start? && log[10].write.GiveUp?
    ensures SameMigration(log, 1, 10) && log[10].now - log[1].now == 6_001_000_000
  {
    var before := ThreeAttempts(cfg, 999_000_000, 2 * SECOND, 7 * SECOND);
    hide AtomicRun, Apply;
    log := Accept(cfg, before, GiveUp, 7 * SECOND);
  }
}
