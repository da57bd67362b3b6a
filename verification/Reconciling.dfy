/** The reconciler as it really runs: it works on a possibly old copy of the object, makes
    remote calls from it, and its status write is accepted only when the copy is still the
    newest version (pkg/controller/reconciler.go, pkg/controller/migration_fsm.go).

    A run is a sequence of steps. Other clients may write metadata at any point, a reconcile
    may stop at any point (error return or crash), and a write may be lost. Reconciles of one
    app do not overlap, which is what controller-runtime guarantees. */
module Reconciling {
  import opened Options
  import opened MigrationStatus

  datatype Answer = Dumped(dump: Dump) | Refused(err: string)

  /** A remote effect, with the version it was decided from and the versions accepted so far.
      `guarded` says that the uncached read in front of the call succeeded, `up` names the created pod
      once it runs, and `error` is what the Restore call came back with. */
  datatype Call =
    | FinalDump(snapshot: nat, at: nat, guarded: bool, answer: Answer)
    | CreateTarget(snapshot: nat, at: nat, guarded: bool, generation: int, dumpId: string, s3Prefix: string,
                   previousNode: string, addr: string, up: Option<string>)
    | RestoreRpc(snapshot: nat, at: nat, dumpId: string, s3Prefix: string, pipeInodes: map<string, string>,
                 addr: string, error: Option<string>)

  /** The copy a reconcile holds: its version, its content, and the last call made from it. */
  datatype Session = Off | On(version: nat, obj: Status, call: Option<nat>)

  datatype World = World(log: seq<Entry>, calls: seq<Call>, session: Session, now: Time)

  datatype Step =
    | OtherClient
    | Tick(now: Time)
    | Fetch(version: nat)
    | Finish
    | Issue(call: Call)
    | Put(write: Write, accepted: bool)

  const INITIAL_WORLD := World([Entry(INITIAL_STATUS, Metadata, 0)], [], Off, 0)

  function Newest(w: World): Entry
    requires |w.log| > 0
  {
    w.log[|w.log| - 1]
  }

  /** What a call carries is read from the copy; the guard compares with the newest stage. */
  predicate CallAllowed(w: World, c: Call)
    requires w.session.On? && |w.log| > 0
  {
    var m := w.session.obj.migration;
    var newest := Newest(w).status.migration.stage;
    c.snapshot == w.session.version && c.at == |w.log| &&
    match c
    case FinalDump(_, _, guarded, _) => m.stage == Dumping && (guarded ==> newest == Dumping)
    case CreateTarget(_, _, guarded, generation, id, prefix, node, addr, _) =>
      m.stage == Uploaded && (guarded ==> newest == Uploaded) && generation == w.session.obj.generation + 1 &&
      id == m.dumpId && prefix == m.s3Prefix && node == m.previousNode && addr == m.pageServerAddr
    case RestoreRpc(_, _, id, prefix, inodes, addr, _) =>
      m.stage == Restoring && id == m.dumpId && prefix == m.s3Prefix && inodes == m.pipeInodes &&
      addr == m.pageServerAddr
  }

  /** The write says what the answer of the call was: a dump that was made or refused, a target pod that runs, a
      process that was restored. */
  predicate Tells(x: Write, c: Call) {
    match x
    case DumpDone(_, dump, _, _) => c.FinalDump? && c.answer == Dumped(dump)
    case DumpFailed(_, err) => c.FinalDump? && c.answer == Refused(err)
    case TargetUp(_, pod) => c.CreateTarget? && c.up == Some(pod)
    case Restored(_, _, _) => c.RestoreRpc? && c.error == None
    case _ => false
  }

  /** A write that reports a call reports the one made in this very reconcile. */
  predicate ReportsOwnCall(w: World, x: Write)
    requires w.session.On?
  {
    match x
    case DumpDone(call, _, _, _) => w.session.call == Some(call) && call < |w.calls| && Tells(x, w.calls[call])
    case DumpFailed(call, _) =>
      w.session.call == call && (call.Some? ==> call.value < |w.calls| && Tells(x, w.calls[call.value]))
    case TargetUp(call, _) => w.session.call == Some(call) && call < |w.calls| && Tells(x, w.calls[call])
    case Restored(call, _, _) => w.session.call == Some(call) && call < |w.calls| && Tells(x, w.calls[call])
    case _ => true
  }

  predicate Can(cfg: Config, w: World, step: Step) {
    |w.log| > 0 &&
    match step
    case OtherClient => true
    case Tick(now) => w.now <= now
    case Fetch(version) => version < |w.log|
    case Finish => true
    case Issue(call) => w.session.On? && CallAllowed(w, call)
    case Put(write, accepted) =>
      w.session.On? && !write.Metadata? && Enabled(cfg, w.session.obj, write, w.now) && ReportsOwnCall(w, write) &&
      (accepted ==> w.session.version == |w.log| - 1)
  }

  function Do(cfg: Config, w: World, step: Step): World
    requires Can(cfg, w, step)
  {
    match step
    case OtherClient => w.(log := w.log + [Entry(Newest(w).status, Metadata, w.now)])
    case Tick(now) => w.(now := now)
    case Fetch(version) => w.(session := On(version, w.log[version].status, None))
    case Finish => w.(session := Off)
    case Issue(call) => w.(calls := w.calls + [call], session := w.session.(call := Some(|w.calls|)))
    case Put(write, accepted) =>
      if accepted then
        var stored := Persist(Apply(cfg, w.session.obj, write, w.now));
        w.(log := w.log + [Entry(stored, write, w.now)], session := On(|w.log|, stored, None))
      else
        w
  }

  /** Every step is possible where it happens. */
  ghost predicate Legal(cfg: Config, steps: seq<Step>)
    decreases |steps|, 0
  {
    steps == [] ||
    var rest := steps[..|steps| - 1];
    Legal(cfg, rest) && Can(cfg, Exec(cfg, rest), steps[|steps| - 1])
  }

  ghost function Exec(cfg: Config, steps: seq<Step>): World
    requires Legal(cfg, steps)
    decreases |steps|, 1
  {
    if steps == [] then INITIAL_WORLD else Do(cfg, Exec(cfg, steps[..|steps| - 1]), steps[|steps| - 1])
  }

  lemma Extend(cfg: Config, steps: seq<Step>, step: Step)
    requires Legal(cfg, steps) && Can(cfg, Exec(cfg, steps), step)
    ensures Legal(cfg, steps + [step]) && Exec(cfg, steps + [step]) == Do(cfg, Exec(cfg, steps), step)
  {
    assert (steps + [step])[..|steps|] == steps;
  }

  /** The start of a legal run is legal, and its versions stay. */
  lemma {:induction false} LogGrows(cfg: Config, before: seq<Step>, after: seq<Step>)
    requires Legal(cfg, after) && before <= after
    ensures Legal(cfg, before) && Exec(cfg, before).log <= Exec(cfg, after).log
    decreases |after|
  {
    if |before| < |after| {
      LogGrows(cfg, before, after[..|after| - 1]);
    } else {
      assert before == after;
    }
  }

  /** The call is still explained by the log it was made against. */
  predicate Explained(log: seq<Entry>, c: Call) {
    c.snapshot < c.at <= |log| &&
    var m := log[c.snapshot].status.migration;
    match c
    case FinalDump(_, at, guarded, _) =>
      m.stage == Dumping && (guarded ==> log[at - 1].status.migration.stage == Dumping)
    case CreateTarget(_, at, guarded, generation, id, prefix, node, addr, _) =>
      m.stage == Uploaded && (guarded ==> log[at - 1].status.migration.stage == Uploaded) &&
      generation == log[c.snapshot].status.generation + 1 && node == m.previousNode &&
      id == m.dumpId && prefix == m.s3Prefix && addr == m.pageServerAddr
    case RestoreRpc(_, _, id, prefix, inodes, addr, _) =>
      m.stage == Restoring && id == m.dumpId && prefix == m.s3Prefix && inodes == m.pipeInodes &&
      addr == m.pageServerAddr
  }

  /** The write is the report of call number `a`. */
  predicate Reports(x: Write, a: nat) {
    (x.DumpDone? && x.call == a) || (x.DumpFailed? && x.failedCall == Some(a)) || (x.TargetUp? && x.call == a) ||
    (x.Restored? && x.call == a)
  }

  /** Entry `j` reports a call that was made before it, answered so, and followed by no other call. */
  ghost predicate ReportFits(log: seq<Entry>, calls: seq<Call>, j: nat, a: nat)
    requires j < |log|
  {
    a < |calls| && calls[a].at <= j && Tells(log[j].write, calls[a]) &&
    (forall b :: a < b < |calls| ==> j < calls[b].at)
  }

  /** No entry reports call number `a`. */
  ghost predicate Unreported(log: seq<Entry>, a: nat) {
    forall j :: 0 <= j < |log| ==> !Reports(log[j].write, a)
  }

  ghost predicate SessionFits(w: World) {
    w.session.On? ==>
      w.session.version < |w.log| && w.session.obj == w.log[w.session.version].status &&
      (w.session.call.Some? ==> w.session.call.value == |w.calls| - 1 && Unreported(w.log, w.session.call.value))
  }

  /** No call is reported twice. */
  ghost predicate OwnCalls(log: seq<Entry>) {
    forall j, k, a: nat :: 0 <= j < k < |log| && Reports(log[j].write, a) ==> !Reports(log[k].write, a)
  }

  ghost predicate Sound(cfg: Config, w: World) {
    AtomicRun(cfg, w.log) && Newest(w).now <= w.now && SessionFits(w) &&
    (forall i :: 0 <= i < |w.calls| ==> Explained(w.log, w.calls[i])) &&
    (forall j, a: nat :: 0 <= j < |w.log| && Reports(w.log[j].write, a) ==> ReportFits(w.log, w.calls, j, a)) &&
    OwnCalls(w.log)
  }

  lemma EntryKeepsSound(cfg: Config, w: World, e: Entry, session: Session)
    requires Sound(cfg, w) && AtomicStep(cfg, Newest(w), e) && e.now == w.now
    requires forall a: nat :: Reports(e.write, a) ==>
               a == |w.calls| - 1 && Tells(e.write, w.calls[a]) && Unreported(w.log, a)
    requires SessionFits(w.(log := w.log + [e], session := session))
    ensures Sound(cfg, w.(log := w.log + [e], session := session))
  {
    var v := w.(log := w.log + [e], session := session);
    forall k | 0 < k < |v.log|
      ensures StepAt(cfg, v.log, k)
    {
      assert k < |w.log| ==> StepAt(cfg, w.log, k);
    }
    forall i | 0 <= i < |v.calls|
      ensures Explained(v.log, v.calls[i])
    {
      assert Explained(w.log, w.calls[i]);
    }
    forall j, a: nat | 0 <= j < |v.log| && Reports(v.log[j].write, a)
      ensures ReportFits(v.log, v.calls, j, a)
    {
      if j < |w.log| {
        assert ReportFits(w.log, w.calls, j, a);
      } else {
        assert Explained(w.log, w.calls[a]);
      }
    }
  }

  lemma CallKeepsSound(cfg: Config, w: World, c: Call)
    requires Sound(cfg, w) && Can(cfg, w, Issue(c))
    ensures Sound(cfg, Do(cfg, w, Issue(c)))
  {
    var v := Do(cfg, w, Issue(c));
    forall j, a: nat | 0 <= j < |v.log| && Reports(v.log[j].write, a)
      ensures ReportFits(v.log, v.calls, j, a)
    {
      assert ReportFits(w.log, w.calls, j, a);
    }
  }

  lemma StepKeepsSound(cfg: Config, w: World, step: Step)
    requires Sound(cfg, w) && Can(cfg, w, step)
    ensures Sound(cfg, Do(cfg, w, step))
  {
    match step
    case OtherClient =>
      EntryKeepsSound(cfg, w, Entry(Newest(w).status, Metadata, w.now), w.session);
    case Put(write, accepted) =>
      if accepted {
        var stored := Persist(Apply(cfg, w.session.obj, write, w.now));
        EntryKeepsSound(cfg, w, Entry(stored, write, w.now), On(|w.log|, stored, None));
      }
    case Issue(call) => CallKeepsSound(cfg, w, call);
    case _ =>
  }

  /** Refinement: whatever copies were read, writes lost and reconciles cut short, the accepted
      versions form a run of the machine that always works on the newest status, every call is
      explained by the version it was decided from, and the copy in use is a version of the object. */
  lemma {:induction false} Refinement(cfg: Config, steps: seq<Step>)
    requires Legal(cfg, steps)
    ensures Sound(cfg, Exec(cfg, steps))
    ensures AtomicRun(cfg, Exec(cfg, steps).log)
    decreases |steps|
  {
    if steps != [] {
      var rest := steps[..|steps| - 1];
      Refinement(cfg, rest);
      StepKeepsSound(cfg, Exec(cfg, rest), steps[|steps| - 1]);
    }
  }
}
