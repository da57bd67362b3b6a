/** The write profiler's accounting and the scheduler that acts on it (pkg/profiler/profiler.go,
    pkg/agent/deadline_scheduler.go). */
module Profiling {
  import opened Addresses
  import opened Scan
  import opened Heat
  import opened Options
  import Deadline

  datatype DirtyVolume = DirtyVolume(dirtyPages: nat, dirtyBytes: nat, ratePerSec: real, cumulativeDirtyBytes: nat)

  const NOTHING_DIRTY := DirtyVolume(0, 0, 0.0, 0)

  /** How ReinitAfterCRIU ends: nothing was set up, the pagemap or the baseline failed, or all went well. */
  datatype Reinit =
    | Failed
    | NoBaseline(trackerFd: nat, targetFd: nat, registered: seq<AddrRange>)
    | Restarted(trackerFd: nat, targetFd: nat, registered: seq<AddrRange>)

  /** The VMAs that are scanned and registered. */
  function Watched(vmas: seq<Vma>): seq<Vma> {
    if vmas == [] then []
    else
      var last := vmas[|vmas| - 1];
      Watched(vmas[..|vmas| - 1]) + if last.WritableAnonymous() then [last] else []
  }

  predicate IsRegistered(v: Vma, registered: seq<AddrRange>) {
    v.start in SetOf(registered) && SetOf(registered)[v.start] == v.end
  }

  predicate IsNew(v: Vma, registered: seq<AddrRange>) {
    v.WritableAnonymous() && !IsRegistered(v, registered)
  }

  lemma {:induction false} WatchedAre(vmas: seq<Vma>)
    ensures forall v :: v in Watched(vmas) <==> v in vmas && v.WritableAnonymous()
    ensures forall v :: v in Watched(vmas) <==> v in vmas && v.writable && v.isPrivate && !v.vdso
  {
    if vmas != [] {
      WatchedAre(vmas[..|vmas| - 1]);
      assert vmas == vmas[..|vmas| - 1] + [vmas[|vmas| - 1]];
    }
  }

  method WritableAnonymousVmas(vmas: seq<Vma>) returns (result: seq<Vma>)
    ensures result == Watched(vmas)
    ensures forall v :: v in result <==> v in vmas && v.WritableAnonymous()
  {
    WatchedAre(vmas);
    result := [];
    for i := 0 to |vmas|
      invariant result == Watched(vmas[..i])
    {
      assert vmas[..i + 1][..i] == vmas[..i];
      if vmas[i].WritableAnonymous() {
        result := result + [vmas[i]];
      }
    }
    assert vmas[..|vmas|] == vmas;
  }

  /** diffVMAs: the VMAs that are not registered with their present end. */
  method DiffVmas(current: seq<Vma>, registered: seq<AddrRange>) returns (fresh': seq<Vma>)
    ensures forall v :: v in fresh' <==> v in current && IsNew(v, registered)
  {
    var regSet: map<nat, nat> := map[];
    for i := 0 to |registered|
      invariant regSet == SetOf(registered[..i])
    {
      assert registered[..i + 1][..i] == registered[..i];
      regSet := regSet[registered[i].start := registered[i].end];
    }
    assert registered[..|registered|] == registered;
    fresh' := [];
    for i := 0 to |current|
      invariant forall v :: v in fresh' <==> v in current[..i] && IsNew(v, registered)
    {
      assert current[..i + 1] == current[..i] + [current[i]];
      if !current[i].WritableAnonymous() {
        continue;
      }
      if current[i].start in regSet && regSet[current[i].start] == current[i].end {
        continue;
      }
      fresh' := fresh' + [current[i]];
    }
    assert current[..|current|] == current;
  }

  /** No two VMAs start at the same address. */
  ghost predicate Distinct(vmas: seq<Vma>) {
    forall i, j :: 0 <= i < j < |vmas| ==> vmas[i].start != vmas[j].start
  }

  lemma SameStart(vmas: seq<Vma>)
    ensures Distinct(vmas) ==> forall v, w :: v in vmas && w in vmas && v.start == w.start ==> v == w
  {
  }

  lemma SetOfLonger(ranges: seq<AddrRange>, r: AddrRange)
    ensures SetOf(ranges + [r]) == SetOf(ranges)[r.start := r.end]
  {
    assert (ranges + [r])[..|ranges|] == ranges;
  }

  class Profiler {
    const intervalMs: nat
    const heat: HeatClassifier
    var trackerFd: int
    var targetFd: int
    /** The descriptors the profiler holds open on its own side. */
    var openFds: set<int>
    var registeredVmas: seq<AddrRange>
    var running: bool
    var hotRegions: seq<HotRegion>
    var dirtyVolume: DirtyVolume
    var sampleCount: nat
    var cumulativeDirtyBytes: nat
    /** The distinct pages scanned dirty since the last successful restart. */
    ghost var pages: set<nat>

    /** The byte counter never understates what was scanned dirty, the hot regions are disjoint, and no descriptor
        is held open that the profiler does not know. */
    ghost predicate Valid()
      reads this, heat
    {
      heat.Valid() && intervalMs > 0 && PAGE * |pages| <= cumulativeDirtyBytes &&
      dirtyVolume.cumulativeDirtyBytes == cumulativeDirtyBytes && Separate(hotRegions) &&
      openFds == (if trackerFd >= 0 then {trackerFd} else {}) && heat.hotConsecutive > 0 && AllDistinct(heat.history)
    }

    constructor (intervalMs: nat, hotThreshold: real, hotConsecutive: int)
      ensures Valid() && fresh(heat) && dirtyVolume == NOTHING_DIRTY && pages == {} && !running
      ensures this.intervalMs == (if intervalMs > 0 then intervalMs else 1000) &&
              heat.hotThreshold == (if hotThreshold > 0.0 then hotThreshold else 0.3) &&
              heat.hotConsecutive == (if hotConsecutive > 0 then hotConsecutive else 3)
    {
      this.intervalMs := if intervalMs == 0 then 1000 else intervalMs;
      var h := new HeatClassifier(if hotThreshold <= 0.0 then 0.3 else hotThreshold,
                                  if hotConsecutive <= 0 then 3 else hotConsecutive);
      heat := h;
      trackerFd, targetFd, running := -1, -1, false;
      openFds, registeredVmas := {}, [];
      hotRegions, dirtyVolume := [], NOTHING_DIRTY;
      sampleCount, cumulativeDirtyBytes := 0, 0;
      pages := {};
    }

    /** Registers what has appeared; a refusal only skips the VMA. Afterwards every watched VMA that was not refused
        is registered with its present range. */
    method RegisterNew(vmas: seq<Vma>, refused: set<nat>)
      modifies this`registeredVmas
      ensures Distinct(vmas) ==>
                forall v :: v in vmas && v.WritableAnonymous() && v.start !in refused ==>
                              IsRegistered(v, registeredVmas)
      ensures forall r :: r in registeredVmas ==>
                            r in old(registeredVmas) ||
                            exists v :: v in vmas && v.WritableAnonymous() && v.start !in refused &&
                                        r == AddrRange(v.start, v.end)
    {
      var appeared := DiffVmas(vmas, registeredVmas);
      ghost var before := registeredVmas;
      SameStart(vmas);
      for i := 0 to |appeared|
        invariant forall s :: (forall v :: v in appeared[..i] ==> v.start != s) ==>
                                (s in SetOf(registeredVmas) <==> s in SetOf(before)) &&
                                (s in SetOf(before) ==> SetOf(registeredVmas)[s] == SetOf(before)[s])
        invariant forall r :: r in registeredVmas ==>
                                r in before ||
                                exists v :: v in vmas && v.WritableAnonymous() && v.start !in refused &&
                                            r == AddrRange(v.start, v.end)
        invariant Distinct(vmas) ==>
                    forall v :: v in appeared[..i] && v.start !in refused ==> IsRegistered(v, registeredVmas)
      {
        assert appeared[..i + 1] == appeared[..i] + [appeared[i]] && appeared[i] in appeared;
        if appeared[i].start in refused {
          continue;
        }
        SetOfLonger(registeredVmas, AddrRange(appeared[i].start, appeared[i].end));
        registeredVmas := registeredVmas + [AddrRange(appeared[i].start, appeared[i].end)];
      }
      assert appeared[..|appeared|] == appeared;
    }

    /** collectSample: a failed parse or scan changes no figure; a good one adds every dirty page once, and its
        pages are all among those the byte counter accounts for. */
    method CollectSample(parsed: Option<seq<Vma>>, refused: set<nat>, answers: seq<Answer>) returns (ok: bool)
      requires Valid() && (parsed.Some? ==> KernelAnswers(Watched(parsed.value), answers))
      modifies this, heat
      ensures Valid()
      ensures ok <==> parsed.Some? && ScanPermitted(Watched(parsed.value), answers)
      ensures !ok ==> cumulativeDirtyBytes == old(cumulativeDirtyBytes) && pages == old(pages) &&
                      hotRegions == old(hotRegions) && dirtyVolume == old(dirtyVolume) &&
                      heat.history == old(heat.history)
      ensures ok ==> var found := AllDirty(Watched(parsed.value), answers);
                     cumulativeDirtyBytes == old(cumulativeDirtyBytes) + PAGE * |found| &&
                     pages == old(pages) + found && sampleCount == old(sampleCount) + 1 &&
                     dirtyVolume.dirtyPages == |found| && dirtyVolume.dirtyBytes == PAGE * |found| &&
                     dirtyVolume.ratePerSec * intervalMs as real == (1000 * PAGE * |found|) as real
      ensures ok ==> heat.history != [] && forall i :: 0 <= i < |hotRegions| ==>
                       IsChunk(heat.history[|heat.history| - 1], hotRegions[i])
      ensures ok ==> |heat.history| == |old(heat.history)| + 1 &&
                     CountsAll(heat.history[|heat.history| - 1], Watched(parsed.value), answers)
      ensures ok ==> exists keys ::
                       HotExactly(hotRegions, keys, heat.history, heat.hotThreshold, heat.hotConsecutive)
    {
      hide HotExactly;
      hide AllDirty, Covers, Separate, Tracks, Presence, GoodHistory, Apart, IsChunk, IsNew;
      if parsed.None? {
        return false;
      }
      RegisterNew(parsed.value, refused);
      var vmas := WritableAnonymousVmas(parsed.value);
      var results, totalDirty;
      ghost var from;
      ok, results, totalDirty, from := ScanDirtyPages(vmas, answers);
      if !ok {
        return;
      }
      ResultsApart(vmas, answers, results, from);
      Classify(results);
      Account(totalDirty, AllDirty(vmas, answers));
    }

    /** The heat of the scan, and with it the hot regions. */
    method Classify(results: seq<ScanResult>)
      requires heat.Valid() && heat.hotConsecutive > 0 && AllDistinct(heat.history)
      requires GoodScan(results) && Disjoint(results) && DistinctVmas(results)
      modifies this`hotRegions, heat
      ensures heat.Valid() && heat.history == old(heat.history) + [results] && AllDistinct(heat.history)
      ensures Separate(hotRegions) && forall i :: 0 <= i < |hotRegions| ==> IsChunk(results, hotRegions[i])
      ensures exists keys ::
                HotExactly(hotRegions, keys, heat.history, heat.hotThreshold, heat.hotConsecutive)
    {
      hide HotExactly, Separate, IsChunk, Tracks, Presence;
      ghost var keys;
      hotRegions, keys := heat.Update(results);
      HotRegionsFit(heat.history, hotRegions, keys);
    }

    method Account(totalDirty: nat, ghost found: set<nat>)
      requires intervalMs > 0 && totalDirty == |found| && PAGE * |pages| <= cumulativeDirtyBytes
      modifies this`sampleCount, this`cumulativeDirtyBytes, this`dirtyVolume, this`pages
      ensures sampleCount == old(sampleCount) + 1 && pages == old(pages) + found
      ensures cumulativeDirtyBytes == old(cumulativeDirtyBytes) + PAGE * |found|
      ensures PAGE * |pages| <= cumulativeDirtyBytes
      ensures dirtyVolume.cumulativeDirtyBytes == cumulativeDirtyBytes && dirtyVolume.dirtyPages == |found|
      ensures dirtyVolume.dirtyBytes == PAGE * |found| &&
              dirtyVolume.ratePerSec * intervalMs as real == (1000 * PAGE * |found|) as real
    {
      var dirtyBytes := totalDirty * PAGE;
      sampleCount := sampleCount + 1;
      cumulativeDirtyBytes := cumulativeDirtyBytes + dirtyBytes;
      var intervalSec := intervalMs as real / 1000.0;
      dirtyVolume := DirtyVolume(totalDirty, dirtyBytes, dirtyBytes as real / intervalSec, cumulativeDirtyBytes);
      PerSecond(dirtyBytes as real, intervalMs as real);
      UnionSize(pages, found);
      pages := pages + found;
    }

    /** CleanupBeforeCRIU: stops, forgets the heat, the registrations and the descriptors, keeps the dirty volume. */
    method CleanupBeforeCRIU()
      requires Valid()
      modifies this, heat
      ensures Valid() && !running && trackerFd == -1 && targetFd == -1 && openFds == {} && registeredVmas == []
      ensures heat.states == map[] && hotRegions == old(hotRegions)
      ensures dirtyVolume == old(dirtyVolume) && cumulativeDirtyBytes == old(cumulativeDirtyBytes)
      ensures pages == old(pages)
    {
      running := false;
      registeredVmas := [];
      heat.Reset();
      if trackerFd >= 0 {
        openFds := openFds - {trackerFd};
      }
      targetFd, trackerFd := -1, -1;
    }

    /** ReinitAfterCRIU, after a cleanup: only a complete restart clears the counters. */
    method ReinitAfterCRIU(how: Reinit)
      requires Valid() && trackerFd < 0
      modifies this
      ensures Valid()
      ensures how.Restarted? ==> running && dirtyVolume == NOTHING_DIRTY && cumulativeDirtyBytes == 0 && pages == {}
      ensures !how.Restarted? ==>
                running == old(running) && dirtyVolume == old(dirtyVolume) && pages == old(pages) &&
                cumulativeDirtyBytes == old(cumulativeDirtyBytes)
      ensures !how.Failed? ==>
                registeredVmas == how.registered && trackerFd == how.trackerFd && targetFd == how.targetFd
    {
      hide Separate, AllDistinct, HeatClassifier.Valid;
      if how.Failed? {
        return;
      }
      trackerFd, targetFd, registeredVmas := how.trackerFd, how.targetFd, how.registered;
      openFds := openFds + {trackerFd};
      if how.NoBaseline? {
        return;
      }
      cumulativeDirtyBytes := 0;
      sampleCount := 0;
      dirtyVolume := NOTHING_DIRTY;
      pages := {};
      running := true;
    }
  }

  lemma PerSecond(bytes: real, ms: real)
    requires ms > 0.0
    ensures bytes / (ms / 1000.0) * ms == 1000.0 * bytes
  {
    var s := ms / 1000.0;
    assert bytes / s * s == bytes;
    assert ms == s * 1000.0;
  }

  lemma UnionSize(a: set<nat>, b: set<nat>)
    ensures |a + b| <= |a| + |b|
  {
    assert a + b == a + (b - a);
    SubsetSize(b - a, b);
  }

  lemma ResultsApart(vmas: seq<Vma>, answers: seq<Answer>, results: seq<ScanResult>, from: seq<nat>)
    requires |vmas| == |answers| && Apart(vmas) && Covers(results, from, vmas, answers, |vmas|)
    ensures Disjoint(results) && DistinctVmas(results)
  {
    hide Dirty, InChunk;
  }

  /** The scan counted every watched VMA that the kernel answered for, exactly and in order. */
  ghost predicate CountsAll(scan: seq<ScanResult>, vmas: seq<Vma>, answers: seq<Answer>)
    requires |vmas| == |answers|
  {
    exists from :: Covers(scan, from, vmas, answers, |vmas|)
  }

  /** What one sample meets: the parsed VMAs, the registrations that are refused, and the scan's answers. */
  datatype Sample = Sample(parsed: Option<seq<Vma>>, refused: set<nat>, answers: seq<Answer>)

  /** What happens around one tick: the samples taken since the last one, however many, and how a pre-dump and the
      restart would go. */
  datatype Round = Round(samples: seq<Sample>, dumpSucceeds: bool, reinit: Reinit)

  ghost predicate FromKernel(s: Sample) {
    s.parsed.Some? ==> KernelAnswers(Watched(s.parsed.value), s.answers)
  }

  /** What the sample adds to the byte counter: a failed parse or scan adds nothing. */
  ghost function SampleBytes(s: Sample): nat
    requires FromKernel(s)
  {
    if s.parsed.Some? && ScanPermitted(Watched(s.parsed.value), s.answers)
    then PAGE * |AllDirty(Watched(s.parsed.value), s.answers)| else 0
  }

  ghost predicate AllFromKernel(samples: seq<Sample>) {
    forall i :: 0 <= i < |samples| ==> FromKernel(samples[i])
  }

  ghost function CountedBytes(samples: seq<Sample>): nat
    requires AllFromKernel(samples)
  {
    if samples == [] then 0 else CountedBytes(samples[..|samples| - 1]) + SampleBytes(samples[|samples| - 1])
  }

  lemma CountedNext(samples: seq<Sample>, i: nat)
    requires AllFromKernel(samples) && i < |samples|
    ensures AllFromKernel(samples[..i]) && AllFromKernel(samples[..i + 1])
    ensures CountedBytes(samples[..i + 1]) == CountedBytes(samples[..i]) + SampleBytes(samples[i])
  {
    assert samples[..i + 1][..i] == samples[..i];
  }

  ghost predicate GoodRounds(rounds: seq<Round>) {
    forall k :: 0 <= k < |rounds| ==> AllFromKernel(rounds[k].samples)
  }

  /** The volume after one tick that found `d` bytes. */
  function AfterTick(config: Deadline.Config, mainPid: int, d: nat, round: Round): nat {
    if Deadline.EvaluateInvariant(config, d).violated && !config.dryRun && mainPid > 0 && round.dumpSucceeds &&
       round.reinit.Restarted?
    then 0 else d
  }

  /** The volume after the first `k` rounds, when it was `d` before them. */
  ghost function Left(config: Deadline.Config, mainPid: int, d: nat, rounds: seq<Round>, k: nat): nat
    requires k <= |rounds| && GoodRounds(rounds)
  {
    if k == 0 then d
    else
      var before := Left(config, mainPid, d, rounds, k - 1) + CountedBytes(rounds[k - 1].samples);
      AfterTick(config, mainPid, before, rounds[k - 1])
  }

  /** What the deadline allows: available time times bandwidth. */
  function Limit(config: Deadline.Config): real {
    Deadline.Available(config) * Deadline.Upload(config)
  }

  /** When every pre-dump is followed by a restart and a round finds at most `w` bytes, the volume is below the limit
      after every tick and less than one round above it before every tick. */
  lemma {:induction false} LeftBelow(config: Deadline.Config, mainPid: int, d: nat, rounds: seq<Round>, w: nat, k: nat)
    requires k <= |rounds| && GoodRounds(rounds) && Deadline.Available(config) > 0.0 && !config.dryRun && mainPid > 0
    requires d as real < Limit(config)
    requires forall i :: 0 <= i < |rounds| ==>
                           rounds[i].dumpSucceeds && rounds[i].reinit.Restarted? && CountedBytes(rounds[i].samples) <= w
    ensures Left(config, mainPid, d, rounds, k) as real < Limit(config)
    ensures k < |rounds| ==>
              var before := Left(config, mainPid, d, rounds, k) + CountedBytes(rounds[k].samples);
              before as real < Limit(config) + w as real
  {
    hide CountedBytes, FromKernel, Limit, Deadline.EvaluateInvariant;
    if k > 0 {
      LeftBelow(config, mainPid, d, rounds, w, k - 1);
      var before := Left(config, mainPid, d, rounds, k - 1) + CountedBytes(rounds[k - 1].samples);
      TickBelow(config, mainPid, before, rounds[k - 1]);
    }
  }

  lemma TickBelow(config: Deadline.Config, mainPid: int, d: nat, round: Round)
    requires Deadline.Available(config) > 0.0 && !config.dryRun && mainPid > 0
    requires round.dumpSucceeds && round.reinit.Restarted?
    ensures AfterTick(config, mainPid, d, round) as real < Limit(config)
  {
    Deadline.ViolatedIff(config, d);
    Deadline.MulLess(0.0, Deadline.Available(config), Deadline.Upload(config));
    hide Deadline.EvaluateInvariant;
  }

  /** The scheduler that keeps the dirty volume uploadable. */
  class InvariantScheduler {
    const config: Deadline.Config
    const profiler: Profiler
    const mainPid: int
    var preDumpCount: nat

    constructor (config: Deadline.Config, profiler: Profiler, mainPid: int)
      ensures this.config == config && this.profiler == profiler && this.mainPid == mainPid && preDumpCount == 0
    {
      this.config, this.profiler, this.mainPid := config, profiler, mainPid;
      preDumpCount := 0;
    }

    /** The loop of Start, with the samples that the profiler takes between the ticks: the volume is exactly the fold
        of the rounds, whatever fails, and what was scanned dirty is at most that. */
    method Start(rounds: seq<Round>)
      requires profiler.Valid() && GoodRounds(rounds)
      modifies this, profiler, profiler.heat
      ensures profiler.Valid()
      ensures profiler.cumulativeDirtyBytes ==
              Left(config, mainPid, old(profiler.cumulativeDirtyBytes), rounds, |rounds|)
      ensures PAGE * |profiler.pages| <= profiler.cumulativeDirtyBytes
    {
      ghost var d := profiler.cumulativeDirtyBytes;
      RunRounds(rounds, d);
      hide Left, GoodRounds;
    }

    method RunRounds(rounds: seq<Round>, ghost d: nat)
      requires profiler.Valid() && GoodRounds(rounds) && profiler.cumulativeDirtyBytes == d
      modifies this, profiler, profiler.heat
      ensures profiler.Valid() && profiler.cumulativeDirtyBytes == Left(config, mainPid, d, rounds, |rounds|)
    {
      hide CountedBytes, FromKernel, AfterTick, Profiler.Valid, AllFromKernel;
      for i := 0 to |rounds|
        invariant profiler.Valid() && profiler.cumulativeDirtyBytes == Left(config, mainPid, d, rounds, i)
      {
        OneRound(rounds[i]);
      }
    }

    /** The samples between two ticks. */
    method TakeSamples(samples: seq<Sample>)
      requires profiler.Valid() && AllFromKernel(samples)
      modifies profiler, profiler.heat
      ensures profiler.Valid()
      ensures profiler.cumulativeDirtyBytes == old(profiler.cumulativeDirtyBytes) + CountedBytes(samples)
    {
      hide AllDirty, KernelAnswers, ScanPermitted, IsChunk, Watched, Profiler.Valid, CountedBytes, CountsAll;
      NoSamples(samples);
      for i := 0 to |samples|
        invariant profiler.Valid() && AllFromKernel(samples[..i])
        invariant profiler.cumulativeDirtyBytes == old(profiler.cumulativeDirtyBytes) + CountedBytes(samples[..i])
      {
        CountedNext(samples, i);
        var _ := profiler.CollectSample(samples[i].parsed, samples[i].refused, samples[i].answers);
      }
      assert samples[..|samples|] == samples;
    }

    lemma NoSamples(samples: seq<Sample>)
      ensures AllFromKernel(samples[..0]) && CountedBytes(samples[..0]) == 0
    {
    }

    /** The samples of a round and its tick. */
    method OneRound(round: Round)
      requires profiler.Valid() && AllFromKernel(round.samples)
      modifies this, profiler, profiler.heat
      ensures profiler.Valid()
      ensures profiler.cumulativeDirtyBytes ==
              AfterTick(config, mainPid, old(profiler.cumulativeDirtyBytes) + CountedBytes(round.samples), round)
    {
      hide CountedBytes, FromKernel, AllFromKernel, Profiler.Valid, Deadline.EvaluateInvariant;
      TakeSamples(round.samples);
      var _ := Tick(round.dumpSucceeds, round.reinit);
    }

    /** One tick of Start. If the invariant holds, the pages scanned dirty can be uploaded within the
        available time; if not, a successful pre-dump and restart bring the count to zero. */
    method Tick(dumpSucceeds: bool, reinit: Reinit) returns (state: Deadline.InvariantState)
      requires profiler.Valid()
      modifies this, profiler, profiler.heat
      ensures profiler.Valid()
      ensures state == Deadline.EvaluateInvariant(config, old(profiler.cumulativeDirtyBytes))
      ensures !state.violated ==>
                profiler.pages == old(profiler.pages) &&
                (PAGE * |profiler.pages|) as real < Deadline.Available(config) * Deadline.Upload(config)
      ensures dumpSucceeds && reinit.Restarted? && mainPid > 0 ==>
                profiler.cumulativeDirtyBytes == Deadline.Tick(config, old(profiler.cumulativeDirtyBytes), 0)
      ensures state.violated && !config.dryRun && mainPid > 0 && dumpSucceeds && reinit.Restarted? ==>
                profiler.pages == {} && profiler.running
      ensures preDumpCount ==
              old(preDumpCount) + if state.violated && !config.dryRun && mainPid > 0 && dumpSucceeds then 1 else 0
      ensures !(state.violated && !config.dryRun && mainPid > 0 && dumpSucceeds && reinit.Restarted?) ==>
                profiler.cumulativeDirtyBytes == old(profiler.cumulativeDirtyBytes)
    {
      state := Deadline.EvaluateInvariant(config, profiler.dirtyVolume.cumulativeDirtyBytes);
      Deadline.ViolatedIff(config, profiler.cumulativeDirtyBytes);
      if state.violated && !config.dryRun {
        TriggerPreDump(dumpSucceeds, reinit);
      }
    }

    /** triggerPreDump: a dump that fails leaves the profiler stopped with its count unchanged. */
    method TriggerPreDump(dumpSucceeds: bool, reinit: Reinit)
      requires profiler.Valid()
      modifies this, profiler, profiler.heat
      ensures profiler.Valid()
      ensures mainPid <= 0 ==> profiler.cumulativeDirtyBytes == old(profiler.cumulativeDirtyBytes)
      ensures mainPid > 0 && !dumpSucceeds ==>
                !profiler.running && profiler.cumulativeDirtyBytes == old(profiler.cumulativeDirtyBytes)
      ensures mainPid > 0 && dumpSucceeds && !reinit.Restarted? ==>
                !profiler.running && profiler.cumulativeDirtyBytes == old(profiler.cumulativeDirtyBytes)
      ensures mainPid > 0 && dumpSucceeds && reinit.Restarted? ==>
                profiler.running && profiler.cumulativeDirtyBytes == 0 && profiler.pages == {}
      ensures preDumpCount == old(preDumpCount) + if mainPid > 0 && dumpSucceeds then 1 else 0
    {
      if mainPid <= 0 {
        return;
      }
      profiler.CleanupBeforeCRIU();
      if !dumpSucceeds {
        return;
      }
      preDumpCount := preDumpCount + 1;
      profiler.ReinitAfterCRIU(reinit);
    }
  }
}
