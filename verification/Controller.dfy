/** The reconciler in the form the source has: an object whose methods change the in-memory
    MigratableApp field by field and then try to store it (pkg/controller/migration_fsm.go,
    pkg/controller/reconciler.go). The ghost field `steps` records what it did; `Valid` says
    that this is a legal run of `Reconciling`, so everything proved of such runs holds of the
    code. Answers from outside (pods, agents, the API server) are parameters. */
module Controller {
  import opened Options
  import opened MigrationStatus
  import opened Reconciling
  import opened MigrationSafety
  import opened Decisions
  import opened Text

  /** The new steps end with an attempt to store `x`, the only one among them. */
  ghost predicate Tried(before: seq<Step>, after: seq<Step>, x: Option<Write>) {
    before <= after &&
    match x
    case Some(write) =>
      |before| < |after| && after[|after| - 1].Put? && after[|after| - 1].write == write &&
      (forall k :: |before| <= k < |after| - 1 ==> !after[k].Put?)
    case None => forall k :: |before| <= k < |after| ==> !after[k].Put?
  }

  /** The first attempt to store something among the new steps. */
  ghost predicate FirstTry(before: seq<Step>, after: seq<Step>, x: Option<Write>) {
    before <= after &&
    match x
    case Some(write) =>
      exists k :: |before| <= k < |after| && after[k].Put? && after[k].write == write && NoPut(after, |before|, k)
    case None => NoPut(after, |before|, |after|)
  }

  ghost predicate NoPut(steps: seq<Step>, from: nat, to: nat)
    requires from <= to <= |steps|
  {
    forall k :: from <= k < to ==> !steps[k].Put?
  }

  /** The writes attempted from step number `from` on. */
  ghost function PutsIn(steps: seq<Step>, from: nat): seq<Write> {
    if |steps| <= from then []
    else
      var last := steps[|steps| - 1];
      PutsIn(steps[..|steps| - 1], from) + if last.Put? then [last.write] else []
  }

  lemma {:induction false} PutsThen(before: seq<Step>, mid: seq<Step>, after: seq<Step>)
    requires before <= mid <= after
    ensures PutsIn(after, |before|) == PutsIn(mid, |before|) + PutsIn(after, |mid|)
    decreases |after|
  {
    if |mid| < |after| {
      PutsThen(before, mid, after[..|after| - 1]);
    } else {
      assert mid == after;
    }
  }

  lemma {:induction false} NoPuts(before: seq<Step>, after: seq<Step>)
    requires before <= after && NoPut(after, |before|, |after|)
    ensures PutsIn(after, |before|) == []
    decreases |after|
  {
    if |before| < |after| {
      NoPuts(before, after[..|after| - 1]);
    }
  }

  lemma PutsTried(before: seq<Step>, after: seq<Step>, x: Write)
    requires Tried(before, after, Some(x))
    ensures PutsIn(after, |before|) == [x]
  {
    NoPuts(before, after[..|after| - 1]);
  }

  /** At most `n` attempts: `first`, then only `again`. */
  ghost predicate AtMost(puts: seq<Write>, n: nat, first: Write, again: Write) {
    0 < |puts| <= n && puts[0] == first && forall i :: 0 < i < |puts| ==> puts[i] == again
  }

  lemma TriedFirst(before: seq<Step>, after: seq<Step>, x: Option<Write>)
    requires Tried(before, after, x)
    ensures FirstTry(before, after, x)
  {
    if x.Some? {
      assert NoPut(after, |before|, |after| - 1);
    }
  }

  /** What comes after the first attempt does not matter, what comes before it must not be one. */
  lemma FirstTryThen(before: seq<Step>, mid: seq<Step>, after: seq<Step>, x: Option<Write>, y: Option<Write>)
    requires FirstTry(before, mid, x) && FirstTry(mid, after, y)
    ensures FirstTry(before, after, if x.Some? then x else y)
  {
    if x.Some? {
      var k :| |before| <= k < |mid| && mid[k].Put? && mid[k].write == x.value && NoPut(mid, |before|, k);
      assert after[k].Put? && NoPut(after, |before|, k);
    } else if y.Some? {
      var k :| |mid| <= k < |after| && after[k].Put? && after[k].write == y.value && NoPut(after, |mid|, k);
      forall i | |before| <= i < k
        ensures !after[i].Put?
      {
        assert i < |mid| ==> after[i] == mid[i];
      }
      assert NoPut(after, |before|, k);
    } else {
      forall i | |before| <= i < |after|
        ensures !after[i].Put?
      {
        assert i < |mid| ==> after[i] == mid[i];
      }
    }
  }

  /** An attempt that has been made stays the first one. */
  lemma FirstTryAfter(before: seq<Step>, mid: seq<Step>, after: seq<Step>)
    requires mid <= after
    ensures forall x :: FirstTry(before, mid, Some(x)) ==> FirstTry(before, after, Some(x))
    ensures before == mid ==> forall x :: FirstTry(mid, after, x) ==> FirstTry(before, after, x)
  {
    forall x | FirstTry(before, mid, Some(x))
      ensures FirstTry(before, after, Some(x))
    {
      var k :| |before| <= k < |mid| && mid[k].Put? && mid[k].write == x && NoPut(mid, |before|, k);
      assert after[k].Put? && NoPut(after, |before|, k);
    }
  }

  /** An attempt to move the migration from one stage to another. */
  predicate MovesStage(s: Step) {
    s.Put? && (Advances(s.write) || Bounds(s.write))
  }

  ghost predicate NoMove(before: seq<Step>, after: seq<Step>) {
    before <= after && forall k :: |before| <= k < |after| ==> !MovesStage(after[k])
  }

  /** A reconcile attempts at most one stage transition. */
  ghost predicate AtMostOneMove(before: seq<Step>, after: seq<Step>) {
    before <= after &&
    forall i, k :: |before| <= i < |after| && |before| <= k < |after| && MovesStage(after[i]) && MovesStage(after[k])
                   ==> i == k
  }

  /** From the newest copy, and with an update that arrives before anybody else's, exactly `stored` is added. */
  ghost predicate Lands(before: seq<Status>, after: seq<Status>, version: nat, net: Net, stored: seq<Status>) {
    version == |before| - 1 && net.reaches && net.others == 0 ==> after == before + stored
  }

  function StoredOf(cfg: Config, s: Status, x: Option<Write>, now: Time): seq<Status> {
    if x.None? then [] else [Persist(Apply(cfg, s, x.value, now))]
  }

  /** What a visit of the newest status adds to the versions. */
  function VisitStores(cfg: Config, s: Status, v: Visit): seq<Status> {
    if TriesAt(s, v).None? then [] else [After(cfg, s, v)]
  }

  /** A reconcile that holds the newest copy of a migration in flight visits it. */
  ghost predicate Visits(cfg: Config, before: seq<Status>, after: seq<Status>, version: nat, s: Status, spec: Spec,
                         o: Outside, now: Time)
  {
    StatusFits(cfg, s) && InFlight(s.migration.stage) && |before| > 0 && s == before[|before| - 1] &&
    o.pods.Ok? && CurrentPod(o.pods.value).Some? ==>
      var v := Visit(spec, CurrentPod(o.pods.value).value, o, now);
      Lands(before, after, version, NetOf(o, 0), VisitStores(cfg, s, v))
  }

  lemma TerminalUnvisited(cfg: Config, before: seq<Status>, after: seq<Status>, version: nat, s: Status, spec: Spec,
                          o: Outside, now: Time)
    requires IsTerminal(s.migration.stage)
    ensures Visits(cfg, before, after, version, s, spec, o, now)
  {
  }

  lemma MovesAfter(before: seq<Step>, mid: seq<Step>, after: seq<Step>)
    requires NoMove(before, mid) && AtMostOneMove(mid, after)
    ensures AtMostOneMove(before, after)
  {
  }

  /** A reconcile that lands leaves the visited status as the newest. */
  lemma VisitLands(cfg: Config, before: seq<Status>, after: seq<Status>, version: nat, spec: Spec, o: Outside,
                   now: Time)
    requires |before| > 0 && version == |before| - 1 && StatusFits(cfg, before[version])
    requires Visits(cfg, before, after, version, before[version], spec, o, now)
    ensures InFlight(before[version].migration.stage) && NetOf(o, 0).reaches && NetOf(o, 0).others == 0 &&
            o.pods.Ok? && CurrentPod(o.pods.value).Some? ==>
              |after| > 0 &&
              after[|after| - 1] ==
              After(cfg, before[version], Visit(spec, CurrentPod(o.pods.value).value, o, now))
  {
    hide StatusFits, TriesAt, Apply, Persist;
  }

  lemma StoresVisit(cfg: Config, s: Status, spec: Spec, pod: Pod, o: Outside, now: Time, call: nat)
    ensures StoredOf(cfg, s, StageTries(s.migration, s.migration.stage, spec, pod, o, now, call), now) ==
            VisitStores(cfg, s, Visit(spec, pod, o, now))
  {
    CallIrrelevant(cfg, s, s.migration.stage, spec, pod, o, now, call);
    if InFlight(s.migration.stage) {
      WaitsIff(s.migration, s.migration.stage, spec, pod, o, now, call);
      WaitsIff(s.migration, s.migration.stage, spec, pod, o, now, 0);
      hide StageTries, Apply, Persist, Polls, BacksOff, TargetLingers, GuardMoved;
    }
  }

  // ---------------------------------------------------------------- progress over recorded steps

  function CopyOf(log: seq<Entry>, lag: nat): Status
    requires |log| > 0
  {
    log[if lag < |log| then |log| - 1 - lag else 0].status
  }

  /** The steps after `before` are those of a reconcile for `q`: its first write is the one the source decides on, it
      moves the stage at most once, and if it lands, the migration has been visited. */
  ghost predicate IsReconcile(cfg: Config, before: seq<Step>, after: seq<Step>, q: Request) {
    before <= after && Legal(cfg, before) && Legal(cfg, after) &&
    var w, v := Exec(cfg, before), Exec(cfg, after);
    |w.log| > 0 && |v.log| > 0 && AtMostOneMove(before, after) &&
    FirstTry(before, after, ReconcileTries(cfg, CopyOf(w.log, q.o.lag), Newest(w).status.migration.stage, q.spec, q.o,
                                           q.now, |w.calls|)) &&
    (Landing(Newest(w).status, q) ==>
       Newest(v).status == After(cfg, Newest(w).status, Visit(q.spec, CurrentPod(q.o.pods.value).value, q.o, q.now)))
  }

  /** A run cut into reconciles, one for each request. */
  ghost predicate IsTrail(cfg: Config, trail: seq<seq<Step>>, requests: seq<Request>) {
    |trail| == |requests| + 1 && Legal(cfg, trail[0]) && |Exec(cfg, trail[0]).log| > 0 &&
    forall i :: 0 <= i < |requests| ==> IsReconcile(cfg, trail[i], trail[i + 1], requests[i])
  }

  lemma TrailLegal(cfg: Config, trail: seq<seq<Step>>, requests: seq<Request>, n: nat)
    requires IsTrail(cfg, trail, requests) && n <= |requests|
    ensures Legal(cfg, trail[n]) && |Exec(cfg, trail[n]).log| > 0
  {
    if n > 0 {
      assert IsReconcile(cfg, trail[n - 1], trail[n - 1 + 1], requests[n - 1]);
    }
  }

  ghost function NewestAt(cfg: Config, steps: seq<Step>): Status
    requires Legal(cfg, steps) && |Exec(cfg, steps).log| > 0
  {
    Newest(Exec(cfg, steps)).status
  }

  /** How many of the first `n` reconciles land. */
  ghost function LandingsIn(cfg: Config, trail: seq<seq<Step>>, requests: seq<Request>, n: nat): nat
    requires IsTrail(cfg, trail, requests) && n <= |requests|
  {
    if n == 0 then 0
    else
      TrailLegal(cfg, trail, requests, n - 1);
      LandingsIn(cfg, trail, requests, n - 1) +
      if Landing(NewestAt(cfg, trail[n - 1]), requests[n - 1]) then 1 else 0
  }

  /** Some version from number `from` on is not in flight. */
  ghost predicate EndedIn(log: seq<Entry>, from: nat) {
    exists j :: from <= j < |log| && !InFlight(log[j].status.migration.stage)
  }

  /** Versions that a reconcile added: the migration ends, or its fuel does not grow, and shrinks if it lands. */
  lemma VersionsStep(cfg: Config, before: seq<Entry>, after: seq<Entry>, q: Request)
    requires AtomicRun(cfg, after) && |before| > 0 && before <= after
    requires var s := before[|before| - 1].status;
             Landing(s, q) ==>
               after[|after| - 1].status == After(cfg, s, Visit(q.spec, CurrentPod(q.o.pods.value).value, q.o, q.now))
    ensures EndedIn(after, |before| - 1) || Burns(before, after, q)
  {
    hide AtomicRun, After, Fuel, Landing;
    var from := |before| - 1;
    if !EndedIn(after, from) {
      FuelNeverRaised(cfg, after, from, |after| - 1);
      EveryStatusFits(cfg, after, from);
      if Landing(before[from].status, q) {
        LandingBurns(cfg, before[from].status, q);
      }
    }
  }

  ghost predicate Burns(before: seq<Entry>, after: seq<Entry>, q: Request) {
    |before| > 0 && |after| > 0 &&
    var s, t := before[|before| - 1].status, after[|after| - 1].status;
    0 < Fuel(t.migration) && Fuel(t.migration) + (if Landing(s, q) then 1 else 0) <= Fuel(s.migration)
  }

  /** One reconcile of a trail, from any copy. */
  lemma ReconcileStep(cfg: Config, before: seq<Step>, after: seq<Step>, q: Request)
    requires IsReconcile(cfg, before, after, q)
    ensures var w, v := Exec(cfg, before), Exec(cfg, after);
            w.log <= v.log && (EndedIn(v.log, |w.log| - 1) || Burns(w.log, v.log, q))
  {
    hide Legal, Exec, FirstTry, AtMostOneMove, ReconcileTries, After, Landing, Burns, EndedIn, AtomicRun, Sound;
    LogGrows(cfg, before, after);
    Refinement(cfg, after);
    VersionsStep(cfg, Exec(cfg, before).log, Exec(cfg, after).log, q);
  }

  ghost predicate Progressed(start: seq<Entry>, log: seq<Entry>, landings: nat) {
    |start| > 0 && start <= log &&
    (EndedIn(log, |start| - 1) ||
     (0 < Fuel(log[|log| - 1].status.migration) &&
      Fuel(log[|log| - 1].status.migration) + landings <= Fuel(start[|start| - 1].status.migration)))
  }

  lemma ProgressStep(start: seq<Entry>, before: seq<Entry>, after: seq<Entry>, landings: nat, q: Request)
    requires Progressed(start, before, landings) && before <= after
    requires EndedIn(after, |before| - 1) || Burns(before, after, q)
    ensures Progressed(start, after, landings + if Landing(before[|before| - 1].status, q) then 1 else 0)
  {
    hide Fuel, Landing;
    EndedStays(before, after, |start| - 1);
  }

  lemma {:induction false} TrailProgress(cfg: Config, trail: seq<seq<Step>>, requests: seq<Request>, n: nat)
    requires IsTrail(cfg, trail, requests) && n <= |requests| && InFlight(NewestAt(cfg, trail[0]).migration.stage)
    ensures Legal(cfg, trail[n])
    ensures Progressed(Exec(cfg, trail[0]).log, Exec(cfg, trail[n]).log, LandingsIn(cfg, trail, requests, n))
  {
    hide Legal, Exec, IsReconcile, Landing, Fuel, Progressed, Burns, EndedIn;
    TrailLegal(cfg, trail, requests, n);
    if n == 0 {
      ProgressStart(cfg, trail[0]);
    } else {
      TrailProgress(cfg, trail, requests, n - 1);
      TrailLegal(cfg, trail, requests, n - 1);
      assert IsReconcile(cfg, trail[n - 1], trail[n - 1 + 1], requests[n - 1]);
      ReconcileStep(cfg, trail[n - 1], trail[n], requests[n - 1]);
      ProgressStep(Exec(cfg, trail[0]).log, Exec(cfg, trail[n - 1]).log, Exec(cfg, trail[n]).log,
                   LandingsIn(cfg, trail, requests, n - 1), requests[n - 1]);
    }
  }

  lemma ProgressStart(cfg: Config, steps: seq<Step>)
    requires Legal(cfg, steps) && |Exec(cfg, steps).log| > 0 && InFlight(NewestAt(cfg, steps).migration.stage)
    ensures Progressed(Exec(cfg, steps).log, Exec(cfg, steps).log, 0)
  {
    hide Legal, Exec, Fuel, AtomicRun;
    Refinement(cfg, steps);
    var log := Exec(cfg, steps).log;
    FuelNeverRaised(cfg, log, |log| - 1, |log| - 1);
  }

  lemma EndedStays(before: seq<Entry>, after: seq<Entry>, from: nat)
    requires before <= after && from < |before|
    ensures EndedIn(before, from) || EndedIn(after, |before| - 1) ==> EndedIn(after, from)
  {
    if EndedIn(before, from) {
      var j :| from <= j < |before| && !InFlight(before[j].status.migration.stage);
      assert !InFlight(after[j].status.migration.stage);
    }
  }

  /** Progress among any other reconciles: stale, lost and waiting ones never raise the fuel, so once as many have
      landed as there was fuel, the migration has ended. */
  lemma InterleavedProgress(cfg: Config, trail: seq<seq<Step>>, requests: seq<Request>)
    requires IsTrail(cfg, trail, requests) && InFlight(NewestAt(cfg, trail[0]).migration.stage)
    ensures Legal(cfg, trail[|requests|])
    ensures LandingsIn(cfg, trail, requests, |requests|) >= Fuel(NewestAt(cfg, trail[0]).migration) ==>
              EndedIn(Exec(cfg, trail[|requests|]).log, |Exec(cfg, trail[0]).log| - 1)
  {
    hide Legal, Exec, IsReconcile, IsTrail, Landing, Fuel, EndedIn, LandingsIn;
    TrailProgress(cfg, trail, requests, |requests|);
  }

  /** listQuiesceTargets: the live running pods, in order. */
  method ListQuiesceTargets(pods: seq<Pod>) returns (out: seq<Pod>)
    ensures out == Targets(pods)
    ensures forall p :: p in out <==> p in pods && !p.terminating && p.running
  {
    TargetsAre(pods);
    out := [];
    for i := 0 to |pods|
      invariant out == Targets(pods[..i])
    {
      assert pods[..i + 1][..i] == pods[..i];
      if pods[i].terminating { continue; }
      if !pods[i].running { continue; }
      out := out + [pods[i]];
    }
    assert pods[..|pods|] == pods;
  }

  method GetCurrentPod(pods: seq<Pod>) returns (current: Option<Pod>)
    ensures current == CurrentPod(pods)
    ensures current.None? <==> forall i :: 0 <= i < |pods| ==> pods[i].terminating
    ensures current.Some? ==>
              exists c :: 0 <= c < |pods| && current.value == pods[c] && !pods[c].terminating &&
                          (forall i :: 0 <= i < |pods| && !pods[i].terminating ==>
                                         pods[i].created < pods[c].created ||
                                         (pods[i].created == pods[c].created && c <= i))
  {
    current := None;
    ghost var c := 0;
    for i := 0 to |pods|
      invariant current == CurrentPod(pods[..i])
      invariant current.None? ==> forall k :: 0 <= k < i ==> pods[k].terminating
      invariant current.Some? ==> 0 <= c < i && current.value == pods[c] && !pods[c].terminating
      invariant current.Some? ==>
                  forall k :: 0 <= k < i && !pods[k].terminating ==>
                                pods[k].created < pods[c].created || (pods[k].created == pods[c].created && c <= k)
    {
      assert pods[..i + 1][..i] == pods[..i];
      if !pods[i].terminating {
        if current.None? || pods[i].created > current.value.created {
          current := Some(pods[i]);
          c := i;
        }
      }
    }
    assert pods[..|pods|] == pods;
  }

  class Reconciler {
    const cfg: Config
    /** The versions the API server accepted; the cache may return any of them. */
    var versions: seq<Status>
    /** The object under reconcile and the version it claims to be. */
    var mapp: Status
    var mappVersion: nat
    var clock: Time
    /** The pods it asked the API server to delete and the Deployments it asked to scale to zero. */
    var deletes: seq<string>
    var scaled: seq<string>
    /** The source pods it kept but took out of service. */
    var detached: seq<string>
    ghost var steps: seq<Step>

    ghost function Now(): World
      reads this
      requires Legal(cfg, steps)
    {
      Exec(cfg, steps)
    }

    ghost predicate Valid()
      reads this
    {
      Legal(cfg, steps) &&
      var w := Now();
      w.now == clock && 0 < |versions| == |w.log| &&
      (forall k :: 0 <= k < |versions| ==> versions[k] == w.log[k].status) &&
      (w.session.On? ==> w.session.version == mappVersion)
    }

    /** A reconcile is working on a copy that it has not changed yet. */
    ghost predicate Holding()
      reads this
    {
      Valid() && Now().session.On? && mapp == Now().session.obj
    }

    constructor (cfg: Config)
      ensures Valid() && this.cfg == cfg && steps == [] && versions == [INITIAL_STATUS]
    {
      this.cfg := cfg;
      versions := [INITIAL_STATUS];
      mapp, mappVersion, clock := INITIAL_STATUS, 0, 0;
      deletes, scaled, detached := [], [], [];
      steps := [];
    }

    ghost method Record(step: Step)
      requires Legal(cfg, steps) && Can(cfg, Now(), step)
      modifies this`steps
      ensures steps == old(steps) + [step]
      ensures Legal(cfg, steps) && Now() == Do(cfg, old(Now()), step)
    {
      Extend(cfg, steps, step);
      steps := steps + [step];
    }

    /** Every status the API server ever held is sound; this is what `Valid` gives for free. */
    lemma EveryVersionFits(k: nat)
      requires Valid() && k < |versions|
      ensures StatusFits(cfg, versions[k])
    {
      Refinement(cfg, steps);
      EveryStatusFits(cfg, Now().log, k);
    }

    /** Another client writes metadata: the version moves, the status does not. */
    method OthersWrite(n: nat)
      requires Valid()
      modifies this`versions, this`steps
      ensures Valid() && old(steps) <= steps && forall k :: |old(steps)| <= k < |steps| ==> steps[k].OtherClient?
      ensures |versions| == |old(versions)| + n && old(versions) <= versions
      ensures versions[|versions| - 1] == old(versions[|versions| - 1])
      ensures Now().session == old(Now().session) && Now().calls == old(Now().calls)
    {
      hide Legal, Exec;
      for i := 0 to n
        invariant Valid() && old(steps) <= steps && forall k :: |old(steps)| <= k < |steps| ==> steps[k].OtherClient?
        invariant |versions| == |old(versions)| + i && old(versions) <= versions
        invariant versions[|versions| - 1] == old(versions[|versions| - 1])
        invariant Now().session == old(Now().session) && Now().calls == old(Now().calls)
      {
        Record(OtherClient);
        versions := versions + [versions[|versions| - 1]];
      }
    }

    /** What an uncached read shows. */
    function NewestStage(): Stage
      reads this
      requires |versions| > 0
    {
      versions[|versions| - 1].migration.stage
    }

    /** What the cache returns when it is `lag` versions behind. */
    function CopyAt(lag: nat): Status
      reads this
      requires |versions| > 0
    {
      versions[if lag < |versions| then |versions| - 1 - lag else 0]
    }

    /** r.Get: the cache hands out a version, maybe an old one. */
    method Get(lag: nat)
      requires Valid()
      modifies this`mapp, this`mappVersion, this`steps
      ensures Holding() && mappVersion == if lag < |versions| then |versions| - 1 - lag else 0
      ensures mapp == versions[mappVersion] && Now().calls == old(Now().calls) && Now().session.call == None
      ensures steps == old(steps) + [Fetch(mappVersion)]
    {
      mappVersion := if lag < |versions| then |versions| - 1 - lag else 0;
      mapp := versions[mappVersion];
      Record(Fetch(mappVersion));
    }

    /** The API server accepts the object and fills in the schema default. */
    method Commit(ghost x: Write)
      requires Valid() && Can(cfg, Now(), Put(x, true))
      requires mapp == Apply(cfg, Now().session.obj, x, clock)
      modifies this`versions, this`mappVersion, this`steps
      ensures Valid() && steps == old(steps) + [Put(x, true)]
      ensures versions == old(versions) + [Persist(mapp)] && mappVersion == |old(versions)|
      ensures Now().session == On(mappVersion, Persist(mapp), None) && Now().calls == old(Now().calls)
    {
      Record(Put(x, true));
      versions := versions + [Persist(mapp)];
      mappVersion := |versions| - 1;
    }

    /** The update is refused or never arrives. */
    method Refuse(ghost x: Write)
      requires Valid() && Can(cfg, Now(), Put(x, false))
      modifies this`steps
      ensures Valid() && steps == old(steps) + [Put(x, false)] && Now() == old(Now())
    {
      Record(Put(x, false));
    }

    /** Status().Update: accepted only if the object still has the newest version. */
    method UpdateStatus(ghost x: Write, net: Net) returns (r: PutResult)
      requires Valid() && Now().session.On? && !x.Metadata?
      requires Enabled(cfg, Now().session.obj, x, clock) && ReportsOwnCall(Now(), x)
      requires mapp == Apply(cfg, Now().session.obj, x, clock)
      modifies this`versions, this`mapp, this`mappVersion, this`steps
      ensures Valid() && Tried(old(steps), steps, Some(x)) && old(versions) <= versions
      ensures steps[|steps| - 1].accepted == (net.reaches && old(mappVersion) == |old(versions)| + net.others - 1)
      ensures r.Stored? ==>
                Holding() && mappVersion == |versions| - 1 && mapp == Persist(old(mapp)) && Now().session.call == None
      ensures r.Conflict? ==> mapp == old(mapp)
      ensures r.Stored? <==> steps[|steps| - 1].accepted && net.acked
      ensures Lands(old(versions), versions, old(mappVersion), net, [Persist(old(mapp))])
      ensures Now().calls == old(Now().calls)
    {
      hide Legal, Exec, Enabled, Apply, Persist;
      OthersWrite(net.others);
      if net.reaches && mappVersion == |versions| - 1 {
        Commit(x);
        if net.acked {
          mapp := versions[mappVersion];
          r := Stored;
        } else {
          r := Broken;
        }
      } else {
        Refuse(x);
        r := if net.reaches then Conflict else Broken;
      }
    }

    /** setStage: `m` is the migration record after the caller's mutation. */
    method SetStage(stage: Stage, m: MigrationInfo, ghost x: Write, net: Net) returns (r: PutResult)
      requires Valid() && Now().session.On? && !x.Metadata?
      requires Enabled(cfg, Now().session.obj, x, clock) && ReportsOwnCall(Now(), x)
      requires AtStage(mapp, stage, m, clock) == Apply(cfg, Now().session.obj, x, clock)
      modifies this`versions, this`mapp, this`mappVersion, this`steps
      ensures Valid() && Tried(old(steps), steps, Some(x)) && old(versions) <= versions
      ensures steps[|steps| - 1].accepted == (net.reaches && old(mappVersion) == |old(versions)| + net.others - 1)
      ensures Now().calls == old(Now().calls)
      ensures Lands(old(versions), versions, old(mappVersion), net,
                    [Persist(Apply(cfg, old(Now().session.obj), x, clock))])
    {
      hide Legal, Exec;
      mapp := mapp.(migration := m);
      mapp := mapp.(migration := mapp.migration.(stage := stage));
      mapp := mapp.(migration := mapp.migration.(lastTransition := clock));
      if mapp.migration.maxRetries == 0 {
        mapp := mapp.(migration := mapp.migration.(maxRetries := DEFAULT_MAX_RETRIES));
      }
      mapp := mapp.(phase := PhaseForStage(stage));
      mapp := mapp.(lastUpdate := clock);
      r := UpdateStatus(x, net);
    }

    /** The three remote calls: what they carry is read from the copy. */
    method CallFinalDump(guarded: bool, answer: Answer)
      requires Holding() && mapp.migration.stage == Dumping
      requires guarded ==> versions[|versions| - 1].migration.stage == Dumping
      modifies this`steps
      ensures Holding() && steps == old(steps) + [Issue(FinalDump(mappVersion, |versions|, guarded, answer))]
      ensures Now().calls == old(Now().calls) + [FinalDump(mappVersion, |versions|, guarded, answer)]
      ensures Now().session.call == Some(|old(Now().calls)|)
    {
      Record(Issue(FinalDump(mappVersion, |versions|, guarded, answer)));
    }

    method CallCreate(guarded: bool, up: Option<string>)
      requires Holding() && mapp.migration.stage == Uploaded
      requires guarded ==> versions[|versions| - 1].migration.stage == Uploaded
      modifies this`steps
      ensures Holding() && |steps| == |old(steps)| + 1 && old(steps) <= steps
      ensures steps[|steps| - 1].Issue? && Now().calls == old(Now().calls) + [steps[|steps| - 1].call]
      ensures steps[|steps| - 1].call ==
              CreateTarget(mappVersion, |versions|, guarded, mapp.generation + 1, mapp.migration.dumpId,
                           mapp.migration.s3Prefix, mapp.migration.previousNode, mapp.migration.pageServerAddr, up)
      ensures Now().session.call == Some(|old(Now().calls)|)
    {
      Record(Issue(CreateTarget(mappVersion, |versions|, guarded, mapp.generation + 1, mapp.migration.dumpId,
                                mapp.migration.s3Prefix, mapp.migration.previousNode, mapp.migration.pageServerAddr,
                                up)));
    }

    method CallRestore(error: Option<string>)
      requires Holding() && mapp.migration.stage == Restoring
      modifies this`steps
      ensures Holding() && |steps| == |old(steps)| + 1 && old(steps) <= steps
      ensures steps[|steps| - 1].Issue? && Now().calls == old(Now().calls) + [steps[|steps| - 1].call]
      ensures steps[|steps| - 1].call ==
              RestoreRpc(mappVersion, |versions|, mapp.migration.dumpId, mapp.migration.s3Prefix,
                         mapp.migration.pipeInodes, mapp.migration.pageServerAddr, error)
      ensures Now().session.call == Some(|old(Now().calls)|)
    {
      Record(Issue(RestoreRpc(mappVersion, |versions|, mapp.migration.dumpId, mapp.migration.s3Prefix,
                              mapp.migration.pipeInodes, mapp.migration.pageServerAddr, error)));
    }

    method StartMigration(spec: Spec, pod: Pod, why: string, net: Net) returns (ghost tried: Write)
      requires Holding() && mapp.migration.stage == Idle
      modifies this`versions, this`mapp, this`mappVersion, this`steps
      ensures Valid() && Tried(old(steps), steps, Some(tried)) && old(versions) <= versions
      ensures tried == StartOf(spec, pod, why) && tried.node == pod.node && tried.why == why
      ensures tried.quiesce <==> spec.quiesce.Some? && spec.quiesce.value.selector != map[]
      ensures Now().calls == old(Now().calls)
    {
      hide Legal, Exec;
      var first := Dumping;
      if spec.quiesce.Some? && |spec.quiesce.value.selector| > 0 {
        first := Quiescing;
      }
      tried := Start(pod.node, why, spec.quiesce.Some? && |spec.quiesce.value.selector| > 0);
      var m := mapp.migration;
      m := m.(previousNode := pod.node, reason := why, retryCount := 0, lastError := "");
      m := m.(dumpId := "", s3Prefix := "", targetPod := "", pageServerAddr := "", pageServerPort := 0);
      var _ := SetStage(first, m, tried, net);
    }

    method FsmQuiescingHandler(spec: Spec, o: Outside) returns (ghost tried: Option<Write>)
      requires Holding() && mapp.migration.stage == Quiescing
      modifies this`versions, this`mapp, this`mappVersion, this`steps, this`deletes, this`scaled
      ensures Valid() && Tried(old(steps), steps, tried) && old(versions) <= versions
      ensures deletes == old(deletes) + QuiesceDeletes(old(mapp.migration), spec.quiesce, o.targets, clock)
      ensures scaled == old(scaled) + QuiesceScales(old(mapp.migration), spec.quiesce, o.targets, clock)
      ensures tried == QuiescingTries(old(mapp.migration), spec.quiesce, o.targets, clock)
      ensures Now().calls == old(Now().calls)
      ensures Lands(old(versions), versions, old(mappVersion), NetOf(o, 0), StoredOf(cfg, old(mapp), tried, clock))
    {
      hide Legal, Exec, NamesOf, Owners, Targets, Apply, Persist;
      if spec.quiesce.None? || |spec.quiesce.value.selector| == 0 {
        tried := FsmAdvanceToDumping(NetOf(o, 0));
        return;
      }
      var budget := spec.quiesce.value.drainSeconds * SECOND;
      if budget <= 0 {
        budget := 5 * SECOND;
      }
      var expired := clock - mapp.migration.lastTransition >= budget;
      if o.targets.Err? {
        tried := FsmAdvanceToDumping(NetOf(o, 0));
        return;
      }
      var pods := ListQuiesceTargets(o.targets.value);
      if |pods| == 0 {
        tried := FsmAdvanceToDumping(NetOf(o, 0));
        return;
      }
      if expired {
        tried := FsmAdvanceToDumping(NetOf(o, 0));
        return;
      }
      if mapp.migration.lastError == "" {
        tried := QuiesceAndLatch(pods, budget, spec.quiesce.value.scaleZero, NetOf(o, 0));
        return;
      }
      tried := None;
    }

    /** First entry: act, then leave a mark so that the action is not repeated. */
    method QuiesceAndLatch(pods: seq<Pod>, budget: Time, scaleZero: bool, net: Net) returns (ghost tried: Option<Write>)
      requires Holding() && mapp.migration.stage == Quiescing && mapp.migration.lastError == "" && |pods| > 0
      requires clock - mapp.migration.lastTransition < budget
      modifies this`versions, this`mapp, this`mappVersion, this`steps, this`deletes, this`scaled
      ensures Valid() && Tried(old(steps), steps, tried) && old(versions) <= versions
      ensures tried == Some(Latch(|pods|, budget)) && Now().calls == old(Now().calls)
      ensures deletes == old(deletes) + if scaleZero then [] else NamesOf(pods)
      ensures scaled == old(scaled) + if scaleZero then Owners(pods) else []
      ensures Lands(old(versions), versions, old(mappVersion), net, StoredOf(cfg, old(mapp), tried, clock))
    {
      hide Legal, Exec;
      if scaleZero {
        ScaleOwnersToZero(pods);
      } else {
        DeletePods(pods);
      }
      tried := Some(Latch(|pods|, budget));
      var m := mapp.migration.(lastError := "quiescing " + Decimal(|pods|) + " pods");
      var _ := SetStage(Quiescing, m, tried.value, net);
    }

    method DeletePods(pods: seq<Pod>)
      modifies this`deletes
      ensures deletes == old(deletes) + NamesOf(pods)
    {
      for i := 0 to |pods|
        invariant deletes == old(deletes) + NamesOf(pods[..i])
      {
        deletes := deletes + [pods[i].name];
      }
      assert pods[..|pods|] == pods;
    }

    /** quiesceScaleOwnersToZero: every owning Deployment once, pods without one are skipped. */
    method ScaleOwnersToZero(pods: seq<Pod>)
      modifies this`scaled
      ensures scaled == old(scaled) + Owners(pods)
    {
      var deploys: set<string> := {};
      for i := 0 to |pods|
        invariant scaled == old(scaled) + Owners(pods[..i])
        invariant forall d :: d in deploys <==> d in Owners(pods[..i])
      {
        assert pods[..i + 1][..i] == pods[..i];
        if pods[i].deployment.None? {
          continue;
        }
        var key := pods[i].deployment.value;
        if key in deploys {
          continue;
        }
        deploys := deploys + {key};
        scaled := scaled + [key];
      }
      assert pods[..|pods|] == pods;
    }

    method FsmAdvanceToDumping(net: Net) returns (ghost tried: Option<Write>)
      requires Holding() && mapp.migration.stage == Quiescing
      modifies this`versions, this`mapp, this`mappVersion, this`steps
      ensures Valid() && Tried(old(steps), steps, tried) && old(versions) <= versions
      ensures tried == Some(BeginDump)
      ensures Now().calls == old(Now().calls)
      ensures Lands(old(versions), versions, old(mappVersion), net, StoredOf(cfg, old(mapp), tried, clock))
    {
      tried := Some(BeginDump);
      var _ := SetStage(Dumping, mapp.migration.(lastError := ""), BeginDump, net);
    }

    method FsmDumpingHandler(spec: Spec, pod: Pod, o: Outside) returns (ghost tried: Option<Write>)
      requires Holding() && mapp.migration.stage == Dumping && Now().session.call == None
      modifies this`versions, this`mapp, this`mappVersion, this`steps
      ensures Valid() && Tried(old(steps), steps, tried) && old(versions) <= versions
      ensures Lands(old(versions), versions, old(mappVersion), NetOf(o, 0), StoredOf(cfg, old(mapp), tried, clock))
      ensures tried == DumpingTries(old(NewestStage()), spec, pod, o, |old(Now().calls)|)
      ensures tried.Some? <==> !o.guardRead || old(NewestStage()) == Dumping
      ensures tried.Some? ==>
                (tried.value.DumpDone? || tried.value.DumpFailed?) &&
                (tried.value.DumpDone? <==> o.sourceAgent.Ok? && o.dump.Dumped?) &&
                (tried.value.DumpDone? ==>
                   tried.value.dump == o.dump.dump && tried.value.node == pod.node &&
                   tried.value.dialBack == if spec.strategy == "lazy-direct" || spec.strategy == "lazy-hybrid"
                                           then Some(pod.ip) else None)
      ensures Now().calls ==
              old(Now().calls) + DumpingCalls(old(NewestStage()), o, old(mappVersion), |old(versions)|)
    {
      hide Legal, Exec;
      tried := None;
      if o.guardRead {
        var newest := versions[|versions| - 1];
        if newest.migration.stage != Dumping {
          return;
        }
      }
      if o.sourceAgent.Err? {
        tried := FsmTransitionToFinalDumpFailed(None, "failed to connect to source agent: " + o.sourceAgent.err,
                                                NetOf(o, 0));
        return;
      }
      ghost var call := |Now().calls|;
      CallFinalDump(o.guardRead, o.dump);
      if o.dump.Refused? {
        tried := FsmTransitionToFinalDumpFailed(Some(call), o.dump.err, NetOf(o, 0));
        return;
      }
      var prefix := Prefix(cfg.app, mapp.generation, pod.node, o.dump.dump.id);
      var dialBackAddr := "";
      var dialBackPort := 0;
      if UsesPageServer(spec) {
        dialBackAddr := pod.ip;
        dialBackPort := PAGE_SERVER_PORT;
      }
      tried := Some(DumpDone(call, o.dump.dump, pod.node, if UsesPageServer(spec) then Some(pod.ip) else None));
      var m := mapp.migration.(dumpId := o.dump.dump.id, s3Prefix := prefix, pipeInodes := o.dump.dump.pipeInodes);
      m := m.(pageServerAddr := dialBackAddr, pageServerPort := dialBackPort, lastError := "");
      var _ := SetStage(Uploaded, m, tried.value, NetOf(o, 0));
    }

    method FsmTransitionToFinalDumpFailed(ghost call: Option<nat>, err: string, net: Net)
      returns (ghost tried: Option<Write>)
      requires Holding() && mapp.migration.stage == Dumping && ReportsOwnCall(Now(), DumpFailed(call, err))
      modifies this`versions, this`mapp, this`mappVersion, this`steps
      ensures Valid() && Tried(old(steps), steps, tried) && old(versions) <= versions
      ensures tried == Some(DumpFailed(call, err))
      ensures Now().calls == old(Now().calls)
      ensures Lands(old(versions), versions, old(mappVersion), net, StoredOf(cfg, old(mapp), tried, clock))
    {
      hide Legal, Exec;
      tried := Some(DumpFailed(call, err));
      var rec := MigrationStatus.Record(mapp.migration.previousNode, "", clock, "migration-failed", false,
                                        DumpError(err));
      mapp := mapp.(history := mapp.history + [rec]);
      var _ := SetStage(FinalDumpFailed, mapp.migration.(lastError := err), tried.value, net);
    }

    method FsmUploadedHandler(o: Outside) returns (ghost tried: Option<Write>)
      requires Holding() && mapp.migration.stage == Uploaded
      modifies this`versions, this`mapp, this`mappVersion, this`steps, this`deletes
      ensures Valid() && Tried(old(steps), steps, tried) && old(versions) <= versions
      ensures deletes == old(deletes) + UploadedDeletes(old(NewestStage()), o)
      ensures Lands(old(versions), versions, old(mappVersion), NetOf(o, 0), StoredOf(cfg, old(mapp), tried, clock))
      ensures tried == UploadedTries(old(NewestStage()), o, |old(Now().calls)|)
      ensures var goes := !o.guardRead || old(NewestStage()) == Uploaded;
              (tried.Some? <==> goes) &&
              (tried.Some? ==> (tried.value.TargetUp? <==> o.newPod.Ok? && o.targetRuns.Ok?) &&
                               (tried.value.TargetUp? ==> tried.value.pod == o.newPod.value.name)) &&
              deletes == old(deletes) +
                         if goes && o.newPod.Ok? && o.targetRuns.Err? then [o.newPod.value.name] else []
      ensures Now().calls ==
              old(Now().calls) +
              UploadedCalls(old(mapp), old(NewestStage()), o, old(mappVersion), |old(versions)|)
    {
      hide Legal, Exec, Apply;
      tried := None;
      if o.guardRead {
        var newest := versions[|versions| - 1];
        if newest.migration.stage != Uploaded {
          return;
        }
      }
      CallCreate(o.guardRead, UpOf(o));
      tried := AwaitTarget(o);
    }

    /** The target pod must exist and run before the migration may restore into it. */
    method AwaitTarget(o: Outside) returns (ghost tried: Option<Write>)
      requires Holding() && mapp.migration.stage == Uploaded && |Now().calls| > 0
      requires Now().session.call == Some(|Now().calls| - 1)
      requires var c := Now().calls[|Now().calls| - 1]; c.CreateTarget? && c.up == UpOf(o)
      modifies this`versions, this`mapp, this`mappVersion, this`steps, this`deletes
      ensures Valid() && Tried(old(steps), steps, tried) && old(versions) <= versions
      ensures tried == UploadedTries(Uploaded, o, |old(Now().calls)| - 1)
      ensures deletes == old(deletes) + UploadedDeletes(Uploaded, o)
      ensures Now().calls == old(Now().calls)
      ensures Lands(old(versions), versions, old(mappVersion), NetOf(o, 0), StoredOf(cfg, old(mapp), tried, clock))
    {
      hide Legal, Exec;
      if o.newPod.Err? {
        tried := FsmTransitionToRestoreFailed("failed to create target pod: " + o.newPod.err, NetOf(o, 0));
        return;
      }
      if o.targetRuns.Err? {
        deletes := deletes + [o.newPod.value.name];
        tried := FsmTransitionToRestoreFailed("target pod failed to reach Running: " + o.targetRuns.err, NetOf(o, 0));
        return;
      }
      tried := Some(TargetUp(|Now().calls| - 1, o.newPod.value.name));
      var _ := SetStage(Restoring, mapp.migration.(targetPod := o.newPod.value.name, lastError := ""), tried.value,
                        NetOf(o, 0));
    }

    method FsmRestoringHandler(pod: Pod, o: Outside) returns (ghost tried: Option<Write>)
      requires Holding() && mapp.migration.stage == Restoring
      modifies this`versions, this`mapp, this`mappVersion, this`steps, this`deletes, this`detached
      ensures Valid() && Tried(old(steps), steps, tried) && old(versions) <= versions
      ensures Lands(old(versions), versions, old(mappVersion), NetOf(o, 0), StoredOf(cfg, old(mapp), tried, clock))
      ensures tried == Some(RestoringTries(old(mapp.migration), o, |old(Now().calls)|))
      ensures tried.value.Restored? <==> o.target.Found? && o.targetAgent.Ok? && o.restore.Ok?
      ensures tried.value.Restored? ==> tried.value.node == o.target.pod.node && tried.value.pod == o.target.pod.name
      ensures !tried.value.Restored? ==>
                tried.value.RestoreBroke? && deletes == old(deletes) && detached == old(detached)
      ensures forall i :: |old(Now().calls)| <= i < |Now().calls| ==>
                            Now().calls[i].RestoreRpc? && (Now().calls[i].error.Some? <==> o.restore.Err?)
      ensures deletes == old(deletes) +
                         if tried.value.Restored? && !o.preserveSource && steps[|steps| - 1].accepted &&
                            NetOf(o, 0).acked
                         then [pod.name] else []
      ensures detached == old(detached) +
                          if tried.value.Restored? && o.preserveSource && steps[|steps| - 1].accepted &&
                             NetOf(o, 0).acked
                          then [pod.name] else []
      ensures Now().calls ==
              old(Now().calls) + RestoringCalls(old(mapp.migration), o, old(mappVersion), |old(versions)|)
    {
      hide Legal, Exec, Lands, StoredOf, Apply;
      if !o.target.Found? {
        tried := FsmTransitionToRestoreFailed("target pod " + mapp.migration.targetPod + " not found: " + o.target.err,
                                              NetOf(o, 0));
        return;
      }
      if o.targetAgent.Err? {
        tried := FsmTransitionToRestoreFailed("failed to connect to target agent: " + o.targetAgent.err, NetOf(o, 0));
        return;
      }
      CallRestore(ErrorOf(o.restore));
      if o.restore.Err? {
        tried := FsmTransitionToRestoreFailed("Restore RPC failed: " + o.restore.err, NetOf(o, 0));
        return;
      }
      tried := FinishMigration(pod, o.target.pod, o.preserveSource, NetOf(o, 0));
    }

    /** Success: history, generation and node are written together with the cleared record. */
    method FinishMigration(source: Pod, target: Pod, preserve: bool, net: Net) returns (ghost tried: Option<Write>)
      requires Holding() && mapp.migration.stage == Restoring && |Now().calls| > 0
      requires Now().session.call == Some(|Now().calls| - 1)
      requires var c := Now().calls[|Now().calls| - 1]; c.RestoreRpc? && c.error == None
      modifies this`versions, this`mapp, this`mappVersion, this`steps, this`deletes, this`detached
      ensures Valid() && Tried(old(steps), steps, tried) && old(versions) <= versions
      ensures tried == Some(Restored(|old(Now().calls)| - 1, target.node, target.name))
      ensures deletes == old(deletes) +
                         if !preserve && steps[|steps| - 1].accepted && net.acked then [source.name] else []
      ensures detached == old(detached) +
                          if preserve && steps[|steps| - 1].accepted && net.acked then [source.name] else []
      ensures Now().calls == old(Now().calls)
      ensures Lands(old(versions), versions, old(mappVersion), net, StoredOf(cfg, old(mapp), tried, clock))
    {
      hide Legal, Exec;
      tried := Some(Restored(|Now().calls| - 1, target.node, target.name));
      RecordSuccess(target, |Now().calls| - 1);
      hide Apply;
      var r := UpdateStatus(tried.value, net);
      if r.Stored? {
        if preserve {
          detached := detached + [source.name];
        } else {
          deletes := deletes + [source.name];
        }
      }
    }

    method RecordSuccess(target: Pod, ghost call: nat)
      modifies this`mapp
      ensures mapp == Apply(cfg, old(mapp), Restored(call, target.node, target.name), clock)
    {
      var rs := mapp.migration;
      var rec := MigrationStatus.Record(rs.previousNode, target.node, clock, rs.reason, true,
                                        Completed(clock - rs.lastTransition, rs.retryCount));
      mapp := mapp.(generation := mapp.generation + 1);
      mapp := mapp.(currentNode := target.node);
      mapp := mapp.(currentPod := target.name);
      mapp := mapp.(history := mapp.history + [rec]);
      mapp := mapp.(checkpoint := mapp.checkpoint.(chainDepth := 1));
      ResetMigrationFSM();
      mapp := mapp.(phase := Running, lastUpdate := clock);
    }

    method ResetMigrationFSM()
      modifies this`mapp
      ensures mapp == old(mapp).(migration := ZERO_INFO)
    {
      mapp := mapp.(migration := ZERO_INFO);
    }

    method FsmRestoreFailedHandler(o: Outside) returns (ghost tried: Option<Write>)
      requires Holding() && mapp.migration.stage == RestoreFailed
      modifies this`versions, this`mapp, this`mappVersion, this`steps, this`deletes
      ensures deletes == old(deletes) + RetryDeletes(old(mapp.migration), o, clock)
      ensures Valid() && Tried(old(steps), steps, tried) && old(versions) <= versions
      ensures tried == RestoreFailedTries(old(mapp.migration), o, clock)
      ensures tried == Some(GiveUp) <==> old(mapp.migration.retryCount >= mapp.migration.maxRetries)
      ensures tried == Some(Retry) ==> old(mapp.migration.targetPod == "") || o.target.Missing?
      ensures deletes ==
              old(deletes) +
              if o.target.Found? && old(mapp.migration.targetPod != "" &&
                                        mapp.migration.retryCount < mapp.migration.maxRetries &&
                                        clock >= mapp.migration.lastTransition + Backoff(mapp.migration.retryCount))
              then [o.target.pod.name] else []
      ensures Now().calls == old(Now().calls)
      ensures Lands(old(versions), versions, old(mappVersion), NetOf(o, 0), StoredOf(cfg, old(mapp), tried, clock))
    {
      hide Legal, Exec;
      var rs := mapp.migration;
      if rs.retryCount >= rs.maxRetries {
        tried := Some(GiveUp);
        var rec := MigrationStatus.Record(rs.previousNode, "", clock, "migration-failed", false,
                                          Exhausted(rs.retryCount, rs.lastError));
        mapp := mapp.(history := mapp.history + [rec]);
        var _ := SetStage(Failed, mapp.migration, GiveUp, NetOf(o, 0));
        return;
      }
      tried := None;
      var elapsed := clock - rs.lastTransition;
      if elapsed < Backoff(rs.retryCount) {
        return;
      }
      if rs.targetPod != "" {
        match o.target
        case Found(stale) =>
          deletes := deletes + [stale.name];
          return;
        case Missing(_) =>
        case Unreachable(_) => return;
      }
      tried := Some(Retry);
      var _ := SetStage(Uploaded, rs.(retryCount := rs.retryCount + 1, targetPod := ""), Retry, NetOf(o, 0));
    }

    method FsmTransitionToRestoreFailed(err: string, net: Net) returns (ghost tried: Option<Write>)
      requires Holding() && (mapp.migration.stage == Uploaded || mapp.migration.stage == Restoring)
      modifies this`versions, this`mapp, this`mappVersion, this`steps
      ensures Valid() && Tried(old(steps), steps, tried) && old(versions) <= versions
      ensures tried == Some(RestoreBroke(err))
      ensures Now().calls == old(Now().calls)
      ensures Lands(old(versions), versions, old(mappVersion), net, StoredOf(cfg, old(mapp), tried, clock))
    {
      tried := Some(RestoreBroke(err));
      var _ := SetStage(RestoreFailed, mapp.migration.(lastError := err), tried.value, net);
    }

    /** advanceMigrationFSM: one handler per stage; the others only wait. */
    method AdvanceMigrationFSM(spec: Spec, pod: Pod, o: Outside) returns (ghost tried: Option<Write>)
      requires Holding() && Now().session.call == None
      modifies this`versions, this`mapp, this`mappVersion, this`steps, this`deletes, this`scaled, this`detached
      ensures Valid() && Tried(old(steps), steps, tried) && old(versions) <= versions
      ensures Lands(old(versions), versions, old(mappVersion), NetOf(o, 0), StoredOf(cfg, old(mapp), tried, clock))
      ensures tried == StageTries(old(mapp.migration), old(NewestStage()), spec, pod, o, clock,
                                  |old(Now().calls)|)
      ensures Now().calls ==
              old(Now().calls) +
              StageCalls(old(mapp), old(NewestStage()), o, old(mappVersion), |old(versions)|)
      ensures tried.Some? ==> Advances(tried.value) && InFlight(old(mapp.migration.stage))
      ensures old(mapp.migration.stage) != Restoring ==>
                deletes == old(deletes) + StageDeletes(old(mapp.migration), old(NewestStage()), spec, o, clock)
      ensures old(mapp.migration.stage == NewestStage()) ==>
                Lands(old(versions), versions, old(mappVersion), NetOf(o, 0),
                      VisitStores(cfg, old(mapp), Visit(spec, pod, o, clock)))
    {
      hide Legal, Exec, VisitStores, Apply, Persist, QuiescingTries, DumpingTries, UploadedTries, RestoringTries,
           RestoreFailedTries;
      StageTriesPermitted(cfg, mapp, NewestStage(), spec, pod, o, clock, |Now().calls|);
      hide Enabled;
      match mapp.migration.stage {
        case Quiescing => tried := FsmQuiescingHandler(spec, o);
        case Dumping => tried := FsmDumpingHandler(spec, pod, o);
        case Uploaded => tried := FsmUploadedHandler(o);
        case Restoring => tried := FsmRestoringHandler(pod, o);
        case RestoreFailed => tried := FsmRestoreFailedHandler(o);
        case _ => tried := None;
      }
      StoresVisit(cfg, old(mapp), spec, pod, o, clock, |old(Now().calls)|);
    }

    /** checkRetryAnnotation: only a terminal stage is reset. */
    method CheckRetryAnnotation(o: Outside) returns (handled: bool)
      requires Holding()
      modifies this`versions, this`mapp, this`mappVersion, this`steps, this`deletes
      ensures Valid() && AtMostOneMove(old(steps), steps) && old(versions) <= versions
      ensures handled <==> o.retryRequested && IsTerminal(old(mapp.migration.stage))
      ensures handled ==> FirstTry(old(steps), steps, Some(Reset))
      ensures deletes == old(deletes) + if handled && o.pods.Ok? && CurrentPod(o.pods.value).Some?
                                        then [CurrentPod(o.pods.value).value.name] else []
      ensures !handled ==> Holding() && mapp == old(mapp) && mappVersion == old(mappVersion) &&
                           steps == old(steps) && versions == old(versions)
    {
      hide Legal, Exec;
      if !o.retryRequested {
        return false;
      }
      if !(mapp.migration.stage == FinalDumpFailed || mapp.migration.stage == Failed) {
        return false;
      }
      DeleteSource(o);
      ResetTerminal(NetOf(o, 0));
      return true;
    }

    /** Best effort: the pod of the failed migration goes. */
    method DeleteSource(o: Outside)
      modifies this`deletes
      ensures deletes == old(deletes) + if o.pods.Ok? && CurrentPod(o.pods.value).Some?
                                        then [CurrentPod(o.pods.value).value.name] else []
    {
      if o.pods.Ok? {
        var source := GetCurrentPod(o.pods.value);
        if source.Some? {
          deletes := deletes + [source.value.name];
        }
      }
    }

    method ResetTerminal(net: Net)
      requires Holding() && IsTerminal(mapp.migration.stage)
      modifies this`versions, this`mapp, this`mappVersion, this`steps
      ensures Valid() && AtMostOneMove(old(steps), steps) && old(versions) <= versions
      ensures FirstTry(old(steps), steps, Some(Reset))
    {
      hide Legal, Exec, Lands;
      ResetMigrationFSM();
      mapp := mapp.(phase := Pending, lastUpdate := clock);
      var r := UpdateStatus(Reset, net);
      TriedFirst(old(steps), steps, Some(Reset));
      if r.Stored? {
        ghost var tried := steps;
        OthersWrite(1);
        FirstTryThen(old(steps), tried, steps, Some(Reset), None);
      }
    }

    method CreateInitialPod(o: Outside)
      requires Holding() && !cfg.webhookManaged
      modifies this`versions, this`mapp, this`mappVersion, this`steps
      ensures Valid() && NoMove(old(steps), steps) && old(versions) <= versions
      ensures Tried(old(steps), steps, NewPodTries(o, false))
    {
      hide Legal, Exec;
      if o.newPod.Err? {
        return;
      }
      mapp := mapp.(phase := Pending);
      mapp := mapp.(generation := 0);
      mapp := mapp.(currentPod := o.newPod.value.name);
      mapp := mapp.(lastUpdate := clock);
      var _ := UpdateStatus(InitialPod(o.newPod.value.name), NetOf(o, 0));
    }

    method RecreatePod(pod: Pod, o: Outside)
      requires Holding() && !cfg.webhookManaged && mapp.migration.stage == Idle
      modifies this`versions, this`mapp, this`mappVersion, this`steps, this`deletes
      ensures Valid() && NoMove(old(steps), steps) && old(versions) <= versions
      ensures Tried(old(steps), steps, NewPodTries(o, true)) && deletes == old(deletes) + [pod.name]
    {
      hide Legal, Exec;
      deletes := deletes + [pod.name];
      if o.oldPodDeleted.Err? {
        return;
      }
      if o.newPod.Err? {
        return;
      }
      mapp := mapp.(phase := Pending);
      mapp := mapp.(currentPod := o.newPod.value.name);
      mapp := mapp.(lastUpdate := clock);
      var _ := UpdateStatus(Recreate(o.newPod.value.name), NetOf(o, 0));
    }

    /** performPreCheckpoint: up to three tries; after a conflict only the id and time are reapplied. */
    method PerformPreCheckpoint(spec: Spec, o: Outside)
      requires Holding() && mapp.migration.stage == Idle && mapp.phase != Migrating
      modifies this`versions, this`mapp, this`mappVersion, this`steps
      ensures Valid() && NoMove(old(steps), steps) && old(versions) <= versions
      ensures FirstTry(old(steps), steps, CheckpointTries(old(mapp), spec, o))
      ensures o.checkpoint.Ok? ==>
                AtMost(PutsIn(steps, |old(steps)|), 3, CheckpointTries(old(mapp), spec, o).value,
                       CheckpointReapplied(o.checkpoint.value))
    {
      hide Legal, Exec, PutsIn;
      var parent := mapp.checkpoint.lastId;
      if spec.maxChainDepth > 0 && mapp.checkpoint.chainDepth >= spec.maxChainDepth {
        parent := "";
      }
      if o.checkpoint.Err? {
        return;
      }
      var id := o.checkpoint.value;
      mapp := mapp.(checkpoint := mapp.checkpoint.(lastId := id, lastTime := clock));
      if parent == "" {
        mapp := mapp.(checkpoint := mapp.checkpoint.(chainRoot := id, chainDepth := 1));
      } else {
        mapp := mapp.(checkpoint := mapp.checkpoint.(chainDepth := mapp.checkpoint.chainDepth + 1));
      }
      StoreCheckpoint(id, Checkpointed(id, parent == ""), o);
    }

    /** The copy carries a checkpoint id that is still to be stored. */
    ghost predicate Carries(x: Write)
      reads this
    {
      Valid() && Now().session.On? && (x.Checkpointed? || x.CheckpointReapplied?) &&
      Enabled(cfg, Now().session.obj, x, clock) && mapp == Apply(cfg, Now().session.obj, x, clock)
    }

    method StoreCheckpoint(id: string, ghost write: Write, o: Outside)
      requires Carries(write)
      modifies this`versions, this`mapp, this`mappVersion, this`steps
      ensures Valid() && NoMove(old(steps), steps) && old(versions) <= versions
      ensures FirstTry(old(steps), steps, Some(write))
      ensures AtMost(PutsIn(steps, |old(steps)|), 3, write, CheckpointReapplied(id))
    {
      ghost var x := write;
      for retries := 0 to 3
        invariant Carries(x) && NoMove(old(steps), steps) && old(versions) <= versions
        invariant if retries == 0 then x == write && steps == old(steps)
                  else FirstTry(old(steps), steps, Some(write)) && x == CheckpointReapplied(id) &&
                       AtMost(PutsIn(steps, |old(steps)|), retries, write, x)
      {
        ghost var before := steps;
        var again := TryCheckpoint(id, x, NetOf(o, 1 + retries), o.refetch);
        PutsThen(old(steps), before, steps);
        if retries > 0 {
          FirstTryThen(old(steps), before, steps, Some(write), Some(x));
        }
        if !again {
          return;
        }
        x := CheckpointReapplied(id);
      }
    }

    method TryCheckpoint(id: string, ghost x: Write, net: Net, refetch: Outcome<nat>) returns (again: bool)
      requires Carries(x)
      modifies this`versions, this`mapp, this`mappVersion, this`steps
      ensures Valid() && NoMove(old(steps), steps) && old(versions) <= versions
      ensures FirstTry(old(steps), steps, Some(x)) && PutsIn(steps, |old(steps)|) == [x]
      ensures again ==> Carries(CheckpointReapplied(id))
    {
      hide Legal, Exec, Lands, Enabled, Apply, Persist;
      var r := UpdateStatus(x, net);
      TriedFirst(old(steps), steps, Some(x));
      PutsTried(old(steps), steps, x);
      hide FirstTry, Tried, PutsIn;
      if !r.Conflict? || refetch.Err? {
        return false;
      }
      ghost var tried := steps;
      Reapply(id, refetch.value);
      FirstTryThen(old(steps), tried, steps, Some(x), None);
      PutsThen(old(steps), tried, steps);
      return true;
    }

    method Reapply(id: string, lag: nat)
      requires Valid()
      modifies this`mapp, this`mappVersion, this`steps
      ensures Carries(CheckpointReapplied(id)) && NoMove(old(steps), steps) && FirstTry(old(steps), steps, None)
      ensures PutsIn(steps, |old(steps)|) == []
    {
      hide Legal, Exec, PutsIn;
      Get(lag);
      NoPuts(old(steps), steps);
      mapp := mapp.(checkpoint := mapp.checkpoint.(lastId := id, lastTime := clock));
    }

    method ReconcileWebhookManaged(spec: Spec, o: Outside)
      requires Holding() && cfg.webhookManaged && Now().session.call == None
      modifies this`versions, this`mapp, this`mappVersion, this`steps, this`deletes, this`scaled, this`detached
      ensures Valid() && AtMostOneMove(old(steps), steps) && old(versions) <= versions
      ensures Visits(cfg, old(versions), versions, old(mappVersion), old(mapp), spec, o, clock)
      ensures FirstTry(old(steps), steps,
                       WebhookTries(old(mapp), old(NewestStage()), spec, o, clock, |old(Now().calls)|))
    {
      hide Legal, Exec;
      if o.pods.Err? {
        return;
      }
      var current := GetCurrentPod(o.pods.value);
      if current.None? {
        return;
      }
      var pod := current.value;
      var goOn := RefreshFromWebhook(pod, NetOf(o, 4));
      if goOn {
        ghost var mid := steps;
        AdvanceOrWatch(spec, pod, o);
        FirstTryAfter(old(steps), mid, steps);
      }
    }

    /** An app with no phase yet becomes Running; a failed write ends the reconcile. */
    method RefreshFromWebhook(pod: Pod, net: Net) returns (goOn: bool)
      requires Holding() && cfg.webhookManaged && Now().session.call == None
      modifies this`versions, this`mapp, this`mappVersion, this`steps
      ensures Valid() && NoMove(old(steps), steps) && old(versions) <= versions
      ensures goOn ==> Holding() && Now().session.call == None
      ensures if old(mapp.phase) == Unset || old(mapp.phase) == Pending
              then Tried(old(steps), steps, Some(WebhookRefresh(pod.node, pod.name)))
              else goOn && steps == old(steps) && mapp == old(mapp) && versions == old(versions)
    {
      hide Legal, Exec;
      if mapp.phase == Unset || mapp.phase == Pending {
        mapp := mapp.(phase := Running);
        mapp := mapp.(currentNode := pod.node);
        mapp := mapp.(currentPod := pod.name);
        mapp := mapp.(lastUpdate := clock);
        var r := UpdateStatus(WebhookRefresh(pod.node, pod.name), net);
        return r.Stored?;
      }
      return true;
    }

    method AdvanceOrWatch(spec: Spec, pod: Pod, o: Outside)
      requires Holding() && Now().session.call == None
      modifies this`versions, this`mapp, this`mappVersion, this`steps, this`deletes, this`scaled, this`detached
      ensures Valid() && AtMostOneMove(old(steps), steps) && old(versions) <= versions
      ensures o.pods.Ok? && CurrentPod(o.pods.value) == Some(pod) ==>
                Visits(cfg, old(versions), versions, old(mappVersion), old(mapp), spec, o, clock)
      ensures FirstTry(old(steps), steps,
                       WatchTries(old(mapp), old(NewestStage()), spec, pod, o, clock, |old(Now().calls)|))
    {
      hide Legal, Exec, FirstTry, StageTries, NeedsMigration, CheckpointTries;
      if mapp.migration.stage != Idle {
        ghost var tried := AdvanceMigrationFSM(spec, pod, o);
        TriedFirst(old(steps), steps, tried);
        return;
      }
      TriedFirst(old(steps), steps, None);
      if mapp.phase == Migrating {
        return;
      }
      var why := NeedsMigration(mapp, spec, pod);
      if why.Some? {
        ghost var tried := StartMigration(spec, pod, why.value, NetOf(o, 0));
        TriedFirst(old(steps), steps, Some(tried));
        return;
      }
      if pod.running && mapp.phase != Migrating && !spec.autoAdjust && ShouldCheckpoint(mapp, spec, clock) {
        PerformPreCheckpoint(spec, o);
      }
    }

    /** The status of an idle app follows its pod; a failed write ends the reconcile. */
    method RefreshFromPod(pod: Pod, net: Net) returns (goOn: bool)
      requires Holding() && !cfg.webhookManaged && mapp.migration.stage == Idle
      modifies this`versions, this`mapp, this`mappVersion, this`steps
      ensures Valid() && NoMove(old(steps), steps) && old(versions) <= versions
      ensures goOn ==> Holding() && mapp.migration.stage == Idle
      ensures Tried(old(steps), steps, RefreshTries(old(mapp), pod))
      ensures RefreshTries(old(mapp), pod).None? ==> goOn && mapp == old(mapp) && steps == old(steps)
    {
      hide Legal, Exec, Lands;
      ghost var tried := RefreshTries(mapp, pod);
      var changed := FollowPod(pod);
      if changed {
        hide RefreshTries, Apply;
        var r := UpdateStatus(tried.value, net);
        return r.Stored?;
      }
      return true;
    }

    /** The fields of an idle app that follow its pod. */
    method FollowPod(pod: Pod) returns (changed: bool)
      requires !cfg.webhookManaged && mapp.migration.stage == Idle
      modifies this`mapp
      ensures changed <==> RefreshTries(old(mapp), pod).Some?
      ensures changed ==> mapp == Apply(cfg, old(mapp), RefreshTries(old(mapp), pod).value, clock)
      ensures changed ==> Enabled(cfg, old(mapp), RefreshTries(old(mapp), pod).value, clock)
      ensures changed ==> RefreshTries(old(mapp), pod).value.Refresh?
      ensures !changed ==> mapp == old(mapp)
    {
      changed := false;
      if pod.node != "" && mapp.currentNode != pod.node {
        mapp := mapp.(currentNode := pod.node, currentPod := pod.name);
        changed := true;
      }
      if mapp.phase != Migrating {
        var newPhase := if pod.running then Running else if pod.failed then PhaseFailed else Pending;
        if mapp.phase != newPhase {
          mapp := mapp.(phase := newPhase);
          changed := true;
        }
      }
      if changed {
        mapp := mapp.(lastUpdate := clock);
      }
    }

    method RefreshAndCheckpoint(spec: Spec, pod: Pod, o: Outside)
      requires Holding() && !cfg.webhookManaged && mapp.migration.stage == Idle
      modifies this`versions, this`mapp, this`mappVersion, this`steps
      ensures Valid() && NoMove(old(steps), steps) && old(versions) <= versions
      ensures FirstTry(old(steps), steps, if RefreshTries(old(mapp), pod).Some? then RefreshTries(old(mapp), pod)
                                          else CheckpointIfDue(old(mapp), spec, pod, o, clock))
    {
      hide RefreshTries, FirstTry, CheckpointTries, Tried, ShouldCheckpoint;
      var goOn := RefreshFromPod(pod, NetOf(o, 4));
      ghost var first := RefreshTries(old(mapp), pod);
      TriedFirst(old(steps), steps, first);
      if goOn && pod.running && mapp.phase != Migrating && !spec.autoAdjust && ShouldCheckpoint(mapp, spec, clock) {
        ghost var mid, copy := steps, mapp;
        PerformPreCheckpoint(spec, o);
        FirstTryThen(old(steps), mid, steps, first, CheckpointTries(copy, spec, o));
      }
    }

    /** One reconcile, from a copy of any age: it attempts at most one stage transition, and
        everything it does is a legal run, so every version ever stored is sound. */
    method Reconcile(spec: Spec, o: Outside, now: Time)
      requires Valid() && clock <= now
      modifies this
      ensures Valid() && clock == now && old(versions) <= versions
      ensures FirstTry(old(steps), steps,
                       ReconcileTries(cfg, old(CopyAt(o.lag)), old(NewestStage()), spec, o, now,
                                      |old(Now().calls)|))
      ensures AtMostOneMove(old(steps), steps) && Now().session.Off?
      ensures InFlight(old(NewestStage())) && o.lag == 0 && NetOf(o, 0).reaches &&
              NetOf(o, 0).others == 0 && !o.deleted && o.hasFinalizer && o.pods.Ok? &&
              CurrentPod(o.pods.value).Some? ==>
                versions[|versions| - 1] ==
                After(cfg, old(versions[|versions| - 1]), Visit(spec, CurrentPod(o.pods.value).value, o, now))
      ensures forall k :: 0 <= k < |versions| ==> StatusFits(cfg, versions[k])
    {
      hide Legal, Exec, ReconcileTries, FirstTry, AtMostOneMove, Visits, After, StatusFits;
      Begin(o.lag, now);
      EveryVersionFits(mappVersion);
      ghost var fetched, first := steps, ReconcileTries(cfg, mapp, NewestStage(), spec, o, now,
                                                        |Now().calls|);
      Dispatch(spec, o);
      FirstTryThen(old(steps), fetched, steps, None, first);
      MovesAfter(old(steps), fetched, steps);
      if o.lag == 0 && !o.deleted && o.hasFinalizer {
        VisitLands(cfg, old(versions), versions, |old(versions)| - 1, spec, o, now);
      }
      End(old(steps), first);
      forall k | 0 <= k < |versions|
        ensures StatusFits(cfg, versions[k])
      {
        EveryVersionFits(k);
      }
    }

    /** Some version from number `from` on is not in flight. */
    ghost predicate EndedSince(from: nat)
      reads this
    {
      exists j :: from <= j < |versions| && !InFlight(versions[j].migration.stage)
    }

    ghost function FuelNow(): int
      reads this
      requires |versions| > 0
    {
      Fuel(versions[|versions| - 1].migration)
    }

    /** One reconcile, whatever it meets: the migration ends, or its fuel does not grow, and shrinks if this one
        lands. */
    method Serve(q: Request)
      requires Valid() && clock <= q.now
      modifies this
      ensures Valid() && clock == q.now && old(versions) <= versions && IsReconcile(cfg, old(steps), steps, q)
      ensures EndedSince(|old(versions)| - 1) ||
              (InFlight(NewestStage()) && 0 < FuelNow() &&
               FuelNow() + (if Landing(old(versions[|versions| - 1]), q) then 1 else 0) <= old(FuelNow()))
    {
      hide Legal, Exec, IsReconcile, Landing, Fuel;
      Answer(q);
      ReconcileStep(cfg, old(steps), steps, q);
      EndedHere(|old(versions)| - 1);
    }

    /** One reconcile, as the recorded steps show it. */
    method Answer(q: Request)
      requires Valid() && clock <= q.now
      modifies this
      ensures Valid() && clock == q.now && old(versions) <= versions && IsReconcile(cfg, old(steps), steps, q)
    {
      hide Legal, Exec, After, ReconcileTries, FirstTry, Visits;
      Reconcile(q.spec, q.o, q.now);
    }

    /** Any sequence of reconciles, stale, lost, waiting or landing. `trail[i]` are the steps recorded before reconcile
        `i`: each leads to the next by a reconcile, and once as many have landed as the migration had fuel, it has
        ended. */
    method ReconcileAll(requests: seq<Request>) returns (ghost trail: seq<seq<Step>>)
      requires Valid() && InOrder(clock, requests) && InFlight(NewestStage())
      modifies this
      ensures Valid() && old(versions) <= versions
      ensures IsTrail(cfg, trail, requests) && trail[0] == old(steps) && trail[|requests|] == steps
      ensures LandingsIn(cfg, trail, requests, |requests|) >= old(FuelNow()) ==> EndedSince(|old(versions)| - 1)
    {
      trail := [steps];
      hide Legal, Exec, IsReconcile;
      for i := 0 to |requests|
        invariant Valid() && old(versions) <= versions && |trail| == i + 1
        invariant i < |requests| ==> clock <= requests[i].now
        invariant trail[0] == old(steps) && trail[i] == steps
        invariant forall k :: 0 <= k < i ==> IsReconcile(cfg, trail[k], trail[k + 1], requests[k])
      {
        Serve(requests[i]);
        trail := trail + [steps];
      }
      InterleavedProgress(cfg, trail, requests);
      EndedHere(|old(versions)| - 1);
    }

    lemma EndedHere(from: nat)
      requires Valid()
      ensures EndedIn(Now().log, from) ==> EndedSince(from)
    {
      hide Legal, Exec;
      if EndedIn(Now().log, from) {
        var j :| from <= j < |Now().log| && !InFlight(Now().log[j].status.migration.stage);
        assert !InFlight(versions[j].migration.stage);
      }
    }

    method Begin(lag: nat, now: Time)
      requires Valid() && clock <= now
      modifies this`mapp, this`mappVersion, this`steps, this`clock
      ensures Holding() && clock == now && mapp == old(CopyAt(lag)) && Now().session.call == None
      ensures mappVersion < |versions| && mapp == versions[mappVersion] && (lag == 0 ==> mappVersion == |versions| - 1)
      ensures Now().calls == old(Now().calls) && NoMove(old(steps), steps) && FirstTry(old(steps), steps, None)
    {
      hide Legal, Exec;
      Record(Tick(now));
      clock := now;
      Get(lag);
    }

    ghost method End(before: seq<Step>, first: Option<Write>)
      requires Valid() && AtMostOneMove(before, steps) && FirstTry(before, steps, first)
      modifies this`steps
      ensures Valid() && AtMostOneMove(before, steps) && FirstTry(before, steps, first) && Now().session.Off?
    {
      hide Legal, Exec;
      Record(Finish);
      assert FirstTry(old(steps), steps, None);
      FirstTryThen(before, old(steps), steps, first, None);
    }

    method Dispatch(spec: Spec, o: Outside)
      requires Holding() && Now().session.call == None
      modifies this`versions, this`mapp, this`mappVersion, this`steps, this`deletes, this`scaled, this`detached
      ensures Valid() && AtMostOneMove(old(steps), steps) && old(versions) <= versions
      ensures !o.deleted && o.hasFinalizer ==>
                Visits(cfg, old(versions), versions, old(mappVersion), old(mapp), spec, o, clock)
      ensures FirstTry(old(steps), steps,
                       ReconcileTries(cfg, old(mapp), old(NewestStage()), spec, o, clock,
                                      |old(Now().calls)|))
    {
      hide Legal, Exec, FirstTry, WebhookTries, OwnPodTries, AtMostOneMove, Visits;
      if o.deleted || !o.hasFinalizer {
        TouchFinalizer(o);
        return;
      }
      var handled := CheckRetryAnnotation(o);
      if handled {
        TerminalUnvisited(cfg, old(versions), versions, old(mappVersion), old(mapp), spec, o, clock);
        return;
      }
      if cfg.webhookManaged {
        ReconcileWebhookManaged(spec, o);
        return;
      }
      ReconcileOwnPod(spec, o);
    }

    /** The finalizer goes or comes: a write that leaves the status alone. */
    method TouchFinalizer(o: Outside)
      requires Holding()
      modifies this`versions, this`mapp, this`mappVersion, this`steps
      ensures Valid() && AtMostOneMove(old(steps), steps) && old(versions) <= versions
      ensures FirstTry(old(steps), steps, None)
    {
      hide Legal, Exec, FirstTry;
      OthersWrite(if NetOf(o, 0).reaches then 1 else 0);
      TriedFirst(old(steps), steps, None);
    }

    /** The rest of Reconcile: the operator owns the pod. */
    method ReconcileOwnPod(spec: Spec, o: Outside)
      requires Holding() && !cfg.webhookManaged && Now().session.call == None
      modifies this`versions, this`mapp, this`mappVersion, this`steps, this`deletes, this`scaled, this`detached
      ensures Valid() && AtMostOneMove(old(steps), steps) && old(versions) <= versions
      ensures Visits(cfg, old(versions), versions, old(mappVersion), old(mapp), spec, o, clock)
      ensures FirstTry(old(steps), steps,
                       OwnPodTries(old(mapp), old(NewestStage()), spec, o, clock, |old(Now().calls)|))
    {
      hide Legal, Exec, FirstTry, StageTries, NeedsMigration, NewPodTries, RefreshTries, CheckpointIfDue;
      if o.pods.Err? {
        TriedFirst(old(steps), steps, None);
        return;
      }
      var current := GetCurrentPod(o.pods.value);
      if current.None? {
        CreateInitialPod(o);
        TriedFirst(old(steps), steps, NewPodTries(o, false));
        return;
      }
      var pod := current.value;
      if mapp.migration.stage != Idle {
        ghost var tried := AdvanceMigrationFSM(spec, pod, o);
        TriedFirst(old(steps), steps, tried);
        return;
      }
      var why := NeedsMigration(mapp, spec, pod);
      if why.Some? {
        ghost var tried := StartMigration(spec, pod, why.value, NetOf(o, 0));
        TriedFirst(old(steps), steps, Some(tried));
        return;
      }
      if pod.failed {
        RecreatePod(pod, o);
        TriedFirst(old(steps), steps, NewPodTries(o, true));
        return;
      }
      RefreshAndCheckpoint(spec, pod, o);
    }
  }
}
