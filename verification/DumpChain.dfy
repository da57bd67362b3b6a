/** Incremental dumps with hot ranges left out (PreCheckpoint and FinalDump in pkg/agent/server.go,
    pkg/agent/checkpoint.go). A page resolves through parent links to the content it had at a dump,
    or it falls into a hole. The contract assumed of CRIU is the one in docs/write_profiler.md: an
    excluded page is a hole in a pre-dump and a full page in a final dump, a no-parent page is stored
    in full, and otherwise a page written since the parent is stored and a clean one points to it. */
module DumpChain {
  import opened Addresses
  import opened Options
  import Heat
  import Scan

  /** A page is named by its start address. */
  type Page = nat
  type Content = int

  datatype Slot = Hole | Stored(content: Content) | InParent

  datatype Dump = Dump(image: map<Page, Slot>, parent: Option<nat>)

  ghost predicate Covers(ranges: seq<AddrRange>, p: Page) {
    exists i :: 0 <= i < |ranges| && ranges[i].start <= p < ranges[i].end
  }

  // ---------------------------------------------------------------- the exclude bookkeeping

  /** A page of a range that was hot at the previous request and whose start is not hot now. */
  ghost predicate TurnedCold(prev: map<nat, nat>, cur: map<nat, nat>, p: Page) {
    exists s :: s in prev && s !in cur && s <= p < prev[s]
  }

  datatype ExcludeArgs = ExcludeArgs(excludeRanges: seq<AddrRange>, noParentRanges: seq<AddrRange>)

  /** The agent's memory of the ranges excluded at the previous request. */
  class Agent {
    var prevExcludeSet: map<nat, nat>

    constructor ()
      ensures prevExcludeSet == map[]
    {
      prevExcludeSet := map[];
    }

    /** The part of PreCheckpoint that turns the hot regions into CRIU arguments. */
    method BuildExcludeArgs(currentHot: seq<AddrRange>) returns (args: ExcludeArgs)
      modifies this
      ensures args.excludeRanges == currentHot && prevExcludeSet == SetOf(currentHot)
      ensures forall p :: Covers(args.noParentRanges, p) <==> TurnedCold(old(prevExcludeSet), SetOf(currentHot), p)
    {
      var exclude: seq<AddrRange> := [];
      var currentSet: map<nat, nat> := map[];
      for i := 0 to |currentHot|
        invariant exclude == currentHot[..i] && currentSet == SetOf(currentHot[..i])
      {
        assert currentHot[..i + 1][..i] == currentHot[..i];
        exclude := exclude + [currentHot[i]];
        currentSet := currentSet[currentHot[i].start := currentHot[i].end];
      }
      assert currentHot[..|currentHot|] == currentHot;
      var noParent: seq<AddrRange> := [];
      var rest := prevExcludeSet.Keys;
      while rest != {}
        invariant rest <= prevExcludeSet.Keys
        invariant forall r :: r in noParent <==>
                                r.start in prevExcludeSet && r.start !in rest && r.start !in currentSet &&
                                r.end == prevExcludeSet[r.start]
        decreases rest
      {
        var start :| start in rest;
        rest := rest - {start};
        if start !in currentSet {
          noParent := noParent + [AddrRange(start, prevExcludeSet[start])];
        }
      }
      CoversTurnedCold(noParent, prevExcludeSet, currentSet);
      prevExcludeSet := currentSet;
      args := ExcludeArgs(exclude, noParent);
    }
  }

  lemma CoversTurnedCold(ranges: seq<AddrRange>, prev: map<nat, nat>, cur: map<nat, nat>)
    requires forall r :: r in ranges <==> r.start in prev && r.start !in cur && r.end == prev[r.start]
    ensures forall p :: Covers(ranges, p) <==> TurnedCold(prev, cur, p)
  {
    forall p: Page
      ensures Covers(ranges, p) <==> TurnedCold(prev, cur, p)
    {
      if Covers(ranges, p) {
        var i :| 0 <= i < |ranges| && ranges[i].start <= p < ranges[i].end;
        assert ranges[i] in ranges;
      }
      if TurnedCold(prev, cur, p) {
        var s :| s in prev && s !in cur && s <= p < prev[s];
        assert AddrRange(s, prev[s]) in ranges;
      }
    }
  }

  /** appendExcludeArgs: more than ten ranges go through a file, and are dropped if it cannot be written. */
  function Effective(hot: seq<AddrRange>, fileWritten: bool): seq<AddrRange> {
    if |hot| > 10 && !fileWritten then [] else hot
  }

  // ---------------------------------------------------------------- dumps

  /** What the agent does that matters to the chain. `onParent` says that CRIU is given the previous
      dump as parent; `written` are the pages written since then. */
  datatype Event =
    | PreCheckpoint(mem: map<Page, Content>, written: set<Page>, onParent: bool, hot: seq<AddrRange>, fileWritten: bool)
    | FailedPreCheckpoint(hot: seq<AddrRange>)
    | ScheduledPreDump(mem: map<Page, Content>, written: set<Page>, onParent: bool, hot: seq<AddrRange>,
                       fileWritten: bool)
    | StopProfiling

  /** `mems` and `holes` are the memory and the ranges left out at each dump. */
  datatype Chain = Chain(
    dumps: seq<Dump>,
    mems: seq<map<Page, Content>>,
    holes: seq<seq<AddrRange>>,
    prev: map<nat, nat>)

  const EMPTY := Chain([], [], [], map[])

  ghost function PreDumpSlot(mem: map<Page, Content>, written: set<Page>, parent: bool, excluded: bool,
                             noParent: bool, p: Page): Slot
    requires p in mem
  {
    if excluded then Hole
    else if !parent || noParent || p in written then Stored(mem[p])
    else InParent
  }

  ghost function Dumped(c: Chain, mem: map<Page, Content>, written: set<Page>, onParent: bool, excl: seq<AddrRange>,
                        cur: map<nat, nat>): Chain
  {
    var parent := if onParent && |c.dumps| > 0 then Some(|c.dumps| - 1) else None;
    var image := map p | p in mem ::
                   PreDumpSlot(mem, written, parent.Some?, Covers(excl, p), TurnedCold(c.prev, cur, p), p);
    c.(dumps := c.dumps + [Dump(image, parent)], mems := c.mems + [mem], holes := c.holes + [excl])
  }

  ghost function Step(c: Chain, e: Event): Chain {
    match e
    case PreCheckpoint(mem, written, onParent, hot, fileWritten) =>
      Dumped(c, mem, written, onParent, Effective(hot, fileWritten), SetOf(hot)).(prev := SetOf(hot))
    case FailedPreCheckpoint(hot) => c.(prev := SetOf(hot))
    case ScheduledPreDump(mem, written, onParent, hot, fileWritten) =>
      // the scheduler passes no no-parent ranges: nothing counts as turned cold
      Dumped(c, mem, written, onParent, Effective(hot, fileWritten), c.prev)
    case StopProfiling => c.(prev := map[])
  }

  ghost function Run(events: seq<Event>): Chain {
    if events == [] then EMPTY else Step(Run(events[..|events| - 1]), events[|events| - 1])
  }

  function Resolve(dumps: seq<Dump>, k: nat, p: Page): Option<Content>
    requires k < |dumps|
    decreases k
  {
    if p !in dumps[k].image then None
    else
      match dumps[k].image[p]
      case Hole => None
      case Stored(c) => Some(c)
      case InParent =>
        if dumps[k].parent.Some? && dumps[k].parent.value < k then Resolve(dumps, dumps[k].parent.value, p) else None
  }

  ghost predicate Shaped(c: Chain) {
    |c.dumps| == |c.mems| == |c.holes| &&
    forall k :: 0 <= k < |c.dumps| ==>
                  c.dumps[k].image.Keys == c.mems[k].Keys &&
                  forall p :: p in c.mems[k] && Covers(c.holes[k], p) ==> c.dumps[k].image[p] == Hole
  }

  /** Every page that dump `k` did not leave out resolves to the content it had at that dump. */
  ghost predicate Recoverable(c: Chain, k: nat)
    requires Shaped(c) && k < |c.dumps|
  {
    forall p :: p in c.mems[k] && !Covers(c.holes[k], p) ==> Resolve(c.dumps, k, p) == Some(c.mems[k][p])
  }

  ghost predicate MakesDump(e: Event) {
    e.PreCheckpoint? || e.ScheduledPreDump?
  }

  /** A page that is not reported as written has the content it had at the previous dump. */
  ghost predicate TrackingHonest(c: Chain, mem: map<Page, Content>, written: set<Page>)
    requires Shaped(c) && |c.dumps| > 0
  {
    forall p :: p in mem && p !in written ==>
                  p in c.mems[|c.mems| - 1] && c.mems[|c.mems| - 1][p] == mem[p]
  }

  ghost predicate Honest(c: Chain, e: Event)
    requires Shaped(c)
  {
    MakesDump(e) && e.onParent && |c.dumps| > 0 ==> TrackingHonest(c, e.mem, e.written)
  }

  /** The event takes a hole of the previous dump for its parent's content: a clean page that the
      previous dump left out and that is now neither left out nor declared parentless. */
  ghost predicate LosesPage(c: Chain, e: Event, p: Page)
    requires Shaped(c)
  {
    MakesDump(e) && e.onParent && |c.dumps| > 0 &&
    p in e.mem && p !in e.written && Covers(c.holes[|c.holes| - 1], p) &&
    !Covers(Effective(e.hot, e.fileWritten), p) && !(e.PreCheckpoint? && TurnedCold(c.prev, SetOf(e.hot), p))
  }

  ghost predicate LosesNothing(c: Chain, e: Event)
    requires Shaped(c)
  {
    forall p :: !LosesPage(c, e, p)
  }

  lemma StepShaped(c: Chain, e: Event)
    requires Shaped(c)
    ensures Shaped(Step(c, e))
  {
  }

  lemma {:induction false} RunShaped(events: seq<Event>)
    ensures Shaped(Run(events))
  {
    if events != [] {
      RunShaped(events[..|events| - 1]);
      StepShaped(Run(events[..|events| - 1]), events[|events| - 1]);
    }
  }

  /** Later dumps do not change what an earlier one resolves to. */
  lemma {:induction false} ResolveStable(dumps: seq<Dump>, more: seq<Dump>, k: nat, p: Page)
    requires k < |dumps| && dumps <= more
    ensures Resolve(more, k, p) == Resolve(dumps, k, p)
    decreases k
  {
    if p in dumps[k].image && dumps[k].image[p].InParent? && dumps[k].parent.Some? && dumps[k].parent.value < k {
      ResolveStable(dumps, more, dumps[k].parent.value, p);
    }
  }

  lemma RecoverableStable(c: Chain, e: Event, k: nat)
    requires Shaped(c) && k < |c.dumps| && Recoverable(c, k)
    ensures Shaped(Step(c, e)) && Recoverable(Step(c, e), k)
  {
    StepShaped(c, e);
    forall p | p in c.mems[k] && !Covers(c.holes[k], p)
      ensures Resolve(Step(c, e).dumps, k, p) == Some(c.mems[k][p])
    {
      ResolveStable(c.dumps, Step(c, e).dumps, k, p);
    }
  }

  /** Exactly when one more dump keeps every page recoverable. */
  lemma DumpRecoverableIff(c: Chain, e: Event)
    requires Shaped(c) && MakesDump(e) && Honest(c, e)
    requires |c.dumps| > 0 ==> Recoverable(c, |c.dumps| - 1)
    ensures Shaped(Step(c, e)) && |Step(c, e).dumps| == |c.dumps| + 1
    ensures Recoverable(Step(c, e), |c.dumps|) <==> LosesNothing(c, e)
  {
    StepShaped(c, e);
    var d, n := Step(c, e), |c.dumps|;
    forall p | p in e.mem && !Covers(d.holes[n], p)
      ensures Resolve(d.dumps, n, p) == Some(e.mem[p]) <==> !LosesPage(c, e, p)
    {
      PageRecoverableIff(c, e, p);
    }
  }

  lemma PageRecoverableIff(c: Chain, e: Event, p: Page)
    requires Shaped(c) && MakesDump(e) && Honest(c, e)
    requires |c.dumps| > 0 ==> Recoverable(c, |c.dumps| - 1)
    requires p in e.mem && !Covers(Effective(e.hot, e.fileWritten), p)
    ensures Resolve(Step(c, e).dumps, |c.dumps|, p) == Some(e.mem[p]) <==> !LosesPage(c, e, p)
  {
    var d, n := Step(c, e), |c.dumps|;
    NewSlot(c, e, p);
    hide Step, Effective, SetOf, Covers, TurnedCold;
    if d.dumps[n].image[p] == InParent {
      ResolveStable(c.dumps, d.dumps, n - 1, p);
      assert Resolve(d.dumps, n, p) == Resolve(c.dumps, n - 1, p);
    }
  }

  /** What the new dump holds of a page that it does not exclude. */
  lemma NewSlot(c: Chain, e: Event, p: Page)
    requires MakesDump(e) && p in e.mem && !Covers(Effective(e.hot, e.fileWritten), p)
    ensures var d, n := Step(c, e), |c.dumps|;
            |d.dumps| == n + 1 && c.dumps <= d.dumps && p in d.dumps[n].image &&
            d.dumps[n].parent == (if e.onParent && n > 0 then Some(n - 1) else None) &&
            d.dumps[n].image[p] ==
            if e.onParent && n > 0 && p !in e.written && !(e.PreCheckpoint? && TurnedCold(c.prev, SetOf(e.hot), p))
            then InParent else Stored(e.mem[p])
  {
    hide Effective, SetOf;
  }

  lemma StepCounts(c: Chain, e: Event)
    ensures |Step(c, e).dumps| == |c.dumps| + if MakesDump(e) then 1 else 0
  {
  }

  /** No event of the sequence loses a page, and the write tracking is honest throughout. */
  ghost predicate Careful(events: seq<Event>) {
    events == [] ||
    var rest, e := events[..|events| - 1], events[|events| - 1];
    Careful(rest) && (RunShaped(rest); Honest(Run(rest), e) && LosesNothing(Run(rest), e))
  }

  ghost predicate AllRecoverable(c: Chain)
    requires Shaped(c)
  {
    forall k :: 0 <= k < |c.dumps| ==> Recoverable(c, k)
  }

  lemma StepRecoverable(c: Chain, e: Event)
    requires Shaped(c) && AllRecoverable(c) && Honest(c, e) && LosesNothing(c, e)
    ensures Shaped(Step(c, e)) && AllRecoverable(Step(c, e))
  {
    StepShaped(c, e);
    StepCounts(c, e);
    hide Step, Recoverable, Shaped, LosesNothing, Honest;
    forall k | 0 <= k < |Step(c, e).dumps|
      ensures Recoverable(Step(c, e), k)
    {
      if k < |c.dumps| {
        RecoverableStable(c, e, k);
      } else {
        DumpRecoverableIff(c, e);
      }
    }
  }

  lemma {:induction false} CarefulRecoverable(events: seq<Event>)
    requires Careful(events)
    ensures Shaped(Run(events)) && AllRecoverable(Run(events))
  {
    if events != [] {
      var rest, e := events[..|events| - 1], events[|events| - 1];
      CarefulParts(events, rest, e);
      CarefulRecoverable(rest);
      hide Step, AllRecoverable, Shaped, LosesNothing, Honest, Careful, Run;
      StepRecoverable(Run(rest), e);
    }
  }

  /** Over any sequence of requests, failed requests, scheduled pre-dumps and profiler stops in
      which no event loses a page, every dump of the chain is recoverable. */
  lemma ChainRecoverable(events: seq<Event>, k: nat)
    requires Careful(events) && k < |Run(events).dumps|
    ensures Shaped(Run(events)) && Recoverable(Run(events), k)
  {
    CarefulRecoverable(events);
  }

  lemma CarefulParts(events: seq<Event>, rest: seq<Event>, e: Event)
    requires Careful(events) && events == rest + [e]
    ensures Careful(rest) && Run(events) == Step(Run(rest), e) && Shaped(Run(rest))
    ensures Honest(Run(rest), e) && LosesNothing(Run(rest), e)
  {
    assert events[..|events| - 1] == rest;
    RunShaped(rest);
    hide Shaped, Honest, LosesNothing, Step;
  }

  // ---------------------------------------------------------------- requests only

  /** A start address that stays hot keeps at least its old range. */
  ghost predicate KeepsHotRanges(before: seq<AddrRange>, after: seq<AddrRange>) {
    forall i, j :: 0 <= i < |before| && 0 <= j < |after| && before[i].start == after[j].start ==>
                     before[i].end <= after[j].end
  }

  ghost predicate DistinctStarts(hot: seq<AddrRange>) {
    forall i, j :: 0 <= i < j < |hot| ==> hot[i].start != hot[j].start
  }

  lemma {:induction false} SetOfHas(hot: seq<AddrRange>)
    ensures forall s :: s in SetOf(hot) ==> exists j :: 0 <= j < |hot| && hot[j].start == s
    ensures DistinctStarts(hot) ==>
              forall i :: 0 <= i < |hot| ==> hot[i].start in SetOf(hot) && SetOf(hot)[hot[i].start] == hot[i].end
  {
    if hot != [] {
      SetOfHas(hot[..|hot| - 1]);
    }
  }

  /** The agent's bookkeeping covers every page that may have been left out before. */
  lemma RequestLosesNothing(c: Chain, before: seq<AddrRange>, e: Event)
    requires Shaped(c) && |c.dumps| > 0 && c.holes[|c.holes| - 1] == before && c.prev == SetOf(before)
    requires e.PreCheckpoint? && Effective(e.hot, e.fileWritten) == e.hot
    requires DistinctStarts(before) && KeepsHotRanges(before, e.hot)
    ensures LosesNothing(c, e)
  {
    hide SetOf, DistinctStarts;
    SetOfHas(before);
    SetOfHas(e.hot);
    forall p: Page | Covers(before, p) && !Covers(e.hot, p)
      ensures TurnedCold(c.prev, SetOf(e.hot), p)
    {
      var i :| 0 <= i < |before| && before[i].start <= p < before[i].end;
      assert before[i].start in SetOf(before);
    }
  }

  /** Only successful requests, with distinct hot regions that keep their ranges while hot. */
  ghost predicate Requests(events: seq<Event>) {
    events == [] ||
    var rest, e := events[..|events| - 1], events[|events| - 1];
    Requests(rest) && e.PreCheckpoint? && Effective(e.hot, e.fileWritten) == e.hot && DistinctStarts(e.hot) &&
    (rest != [] ==> KeepsHotRanges(rest[|rest| - 1].hot, e.hot))
  }

  ghost predicate AllHonest(events: seq<Event>) {
    events == [] ||
    var rest := events[..|events| - 1];
    AllHonest(rest) && (RunShaped(rest); Honest(Run(rest), events[|events| - 1]))
  }

  lemma {:induction false} RequestsCareful(events: seq<Event>)
    requires Requests(events) && AllHonest(events)
    ensures Careful(events) && |Run(events).dumps| == |events|
  {
    if events != [] {
      var rest, e := events[..|events| - 1], events[|events| - 1];
      RequestsCareful(rest);
      RunShaped(rest);
      if rest != [] {
        var before := rest[|rest| - 1];
        RequestLosesNothing(Run(rest), before.hot, e);
      }
    }
  }

  /** Dump chain soundness for the requests the controller makes: every page that a dump did not
      leave out resolves to its content at that dump. */
  lemma RequestsRecoverable(events: seq<Event>, k: nat)
    requires Requests(events) && AllHonest(events) && k < |events|
    ensures |Run(events).dumps| == |events| && Shaped(Run(events)) && Recoverable(Run(events), k)
  {
    RequestsCareful(events);
    ChainRecoverable(events, k);
  }

  // ---------------------------------------------------------------- what the profiler provides

  function RangesOf(hot: seq<Heat.HotRegion>): seq<AddrRange> {
    seq(|hot|, i requires 0 <= i < |hot| => AddrRange(hot[i].start, hot[i].end))
  }

  /** The hot regions of a request: disjoint chunks of the last scan, as the profiler returns them. */
  ghost predicate FromProfiler(hot: seq<Heat.HotRegion>, scan: seq<Scan.ScanResult>) {
    Heat.Separate(hot) && forall i :: 0 <= i < |hot| ==> Heat.IsChunk(scan, hot[i])
  }

  lemma ProfilerStarts(hot: seq<Heat.HotRegion>, scan: seq<Scan.ScanResult>)
    requires FromProfiler(hot, scan)
    ensures DistinctStarts(RangesOf(hot))
  {
    forall i, j | 0 <= i < j < |hot|
      ensures hot[i].start != hot[j].start
    {
      assert hot[i].start < hot[i].end && hot[j].start < hot[j].end;
    }
  }

  lemma ProfilerKeeps(before: seq<Heat.HotRegion>, old': seq<Scan.ScanResult>, after: seq<Heat.HotRegion>,
                      new': seq<Scan.ScanResult>)
    requires FromProfiler(before, old') && FromProfiler(after, new') && Heat.NoVmaShrinks(old', new')
    ensures KeepsHotRanges(RangesOf(before), RangesOf(after))
  {
    forall i, j | 0 <= i < |before| && 0 <= j < |after| && before[i].start == after[j].start
      ensures before[i].end <= after[j].end
    {
      Heat.HotRegionKept(old', new', before[i], after[j]);
    }
  }

  /** Successful requests that exclude what the profiler found in the scan before each. */
  ghost predicate Profiled(events: seq<Event>, hots: seq<seq<Heat.HotRegion>>, scans: seq<seq<Scan.ScanResult>>) {
    |events| == |hots| == |scans| &&
    (forall k :: 0 <= k < |events| ==>
                   events[k].PreCheckpoint? && events[k].hot == RangesOf(hots[k]) && FromProfiler(hots[k], scans[k]) &&
                   Effective(events[k].hot, events[k].fileWritten) == events[k].hot) &&
    (forall k :: 0 < k < |events| ==> Heat.NoVmaShrinks(scans[k - 1], scans[k]))
  }

  lemma {:induction false} ProfiledRequests(events: seq<Event>, hots: seq<seq<Heat.HotRegion>>,
                                            scans: seq<seq<Scan.ScanResult>>)
    requires Profiled(events, hots, scans)
    ensures Requests(events)
    decreases |events|
  {
    if events != [] {
      var n := |events| - 1;
      assert Profiled(events[..n], hots[..n], scans[..n]);
      ProfiledRequests(events[..n], hots[..n], scans[..n]);
      ProfilerStarts(hots[n], scans[n]);
      if n > 0 {
        ProfilerKeeps(hots[n - 1], scans[n - 1], hots[n], scans[n]);
      }
    }
  }

  /** With the profiler active, every dump of a run of successful requests is recoverable as long as no VMA shrinks
      from one request to the next. */
  lemma ProfiledRecoverable(events: seq<Event>, hots: seq<seq<Heat.HotRegion>>, scans: seq<seq<Scan.ScanResult>>,
                            k: nat)
    requires Profiled(events, hots, scans) && AllHonest(events) && k < |events|
    ensures |Run(events).dumps| == |events| && Shaped(Run(events)) && Recoverable(Run(events), k)
  {
    ProfiledRequests(events, hots, scans);
    RequestsRecoverable(events, k);
  }

  // ---------------------------------------------------------------- the final dump

  /** The final dump stores excluded pages in full and has no no-parent ranges. */
  ghost function FinalDump(c: Chain, mem: map<Page, Content>, written: set<Page>, onParent: bool, hot: seq<AddrRange>,
                           fileWritten: bool): Chain
  {
    var parent := if onParent && |c.dumps| > 0 then Some(|c.dumps| - 1) else None;
    var excl := Effective(hot, fileWritten);
    var image := map p | p in mem ::
                   if Covers(excl, p) || parent.None? || p in written then Stored(mem[p]) else InParent;
    c.(dumps := c.dumps + [Dump(image, parent)], mems := c.mems + [mem], holes := c.holes + [[]])
  }

  /** The final dump is complete exactly when every clean page that the last pre-dump left out
      is still excluded. */
  lemma FinalDumpCompleteIff(c: Chain, mem: map<Page, Content>, written: set<Page>, onParent: bool, hot: seq<AddrRange>,
                             fileWritten: bool)
    requires Shaped(c) && (|c.dumps| > 0 ==> Recoverable(c, |c.dumps| - 1))
    requires onParent && |c.dumps| > 0 ==> TrackingHonest(c, mem, written)
    ensures (forall p :: p in mem ==>
                           Resolve(FinalDump(c, mem, written, onParent, hot, fileWritten).dumps, |c.dumps|, p)
                           == Some(mem[p]))
            <==>
            (onParent && |c.dumps| > 0 ==>
               forall p :: p in mem && p !in written && Covers(c.holes[|c.dumps| - 1], p) ==>
                             Covers(Effective(hot, fileWritten), p))
  {
    var d, n := FinalDump(c, mem, written, onParent, hot, fileWritten), |c.dumps|;
    forall p | p in mem
      ensures Resolve(d.dumps, n, p) == Some(mem[p]) <==>
              !(onParent && n > 0 && p !in written && Covers(c.holes[n - 1], p) &&
                !Covers(Effective(hot, fileWritten), p))
    {
      if d.dumps[n].image[p] == InParent {
        ResolveStable(c.dumps, d.dumps, n - 1, p);
        assert Resolve(d.dumps, n, p) == Resolve(c.dumps, n - 1, p);
      }
    }
  }

  // ---------------------------------------------------------------- where it fails

  /** A hot range that shrinks under the same start address loses the pages it gave up. */
  lemma ShrinkingRangeLoses() returns (events: seq<Event>)
    ensures |events| == 2 && events[0].PreCheckpoint? && events[1].PreCheckpoint? && AllHonest(events)
    ensures Shaped(Run(events)) && |Run(events).dumps| == 2 && !Recoverable(Run(events), 1)
  {
    var mem: map<Page, Content> := map[0 := 7, 4096 := 8];
    var e1 := PreCheckpoint(mem, {}, false, [AddrRange(0, 8192)], true);
    var e2 := PreCheckpoint(mem, {}, true, [AddrRange(0, 4096)], true);
    events := [e1] + [e2];
    OneThenOne(e1, e2);
    assert [AddrRange(0, 4096)][..0] == [];
    assert 0 in SetOf([AddrRange(0, 4096)]);
    assert [AddrRange(0, 8192)][..0] == [];
    assert [AddrRange(0, 8192)][0].start <= 4096 < [AddrRange(0, 8192)][0].end;
    assert LosesPage(Run([e1]), e2, 4096);
    DumpRecoverableIff(Run([e1]), e2);
  }

  lemma OneThenOne(e1: Event, e2: Event)
    requires e1.PreCheckpoint? && !e1.onParent && e2.PreCheckpoint?
    ensures ([e1] + [e2])[..1] == [e1] && Run([e1]) == Step(EMPTY, e1) && Run([e1] + [e2]) == Step(Run([e1]), e2)
    ensures Shaped(Run([e1])) && Recoverable(Run([e1]), 0)
    ensures AllHonest([e1]) && (AllHonest([e1] + [e2]) <==> Honest(Run([e1]), e2))
  {
    assert ([e1] + [e2])[..1] == [e1] && [e1][..0] == [];
    RunShaped([e1]);
    DumpRecoverableIff(EMPTY, e1);
  }

  /** The exclude set is replaced before the dump succeeds, so a failed request forgets the holes
      of the last dump that exists. */
  lemma FailedRequestForgets(c: Chain, e: Event, p: Page)
    requires Shaped(c) && |c.dumps| > 0 && Recoverable(c, |c.dumps| - 1)
    requires e.PreCheckpoint? && e.onParent && e.hot == [] && Honest(Step(c, FailedPreCheckpoint([])), e)
    requires p in e.mem && p !in e.written && Covers(c.holes[|c.holes| - 1], p)
    ensures Shaped(Step(Step(c, FailedPreCheckpoint([])), e))
    ensures !Recoverable(Step(Step(c, FailedPreCheckpoint([])), e), |c.dumps|)
  {
    var d := Step(c, FailedPreCheckpoint([]));
    RecoverableStable(c, FailedPreCheckpoint([]), |c.dumps| - 1);
    assert LosesPage(d, e, p);
    DumpRecoverableIff(d, e);
  }

  /** A clean page that the last dump left out and that the next one takes from its parent. */
  ghost predicate Abandoned(c: Chain, e: Event, p: Page)
    requires Shaped(c) && MakesDump(e)
  {
    |c.dumps| > 0 && Recoverable(c, |c.dumps| - 1) && Honest(c, e) && e.onParent && p in e.mem && p !in e.written &&
    Covers(c.holes[|c.holes| - 1], p) && !Covers(Effective(e.hot, e.fileWritten), p)
  }

  /** The scheduler passes no no-parent ranges, so its pre-dump loses every hole that has cooled. */
  lemma ScheduledDumpLoses(c: Chain, e: Event, p: Page)
    requires Shaped(c) && e.ScheduledPreDump? && Abandoned(c, e, p)
    ensures Shaped(Step(c, e)) && !Recoverable(Step(c, e), |c.dumps|)
  {
    assert LosesPage(c, e, p);
    DumpRecoverableIff(c, e);
  }

  /** More than ten unchanged hot ranges whose file cannot be written: nothing is excluded and nothing counts as
      cooled, so every hole is lost. */
  lemma UnwrittenFileLoses(c: Chain, e: Event, p: Page)
    requires Shaped(c) && e.PreCheckpoint? && |e.hot| > 10 && !e.fileWritten && c.prev == SetOf(e.hot)
    requires Abandoned(c, e, p)
    ensures Shaped(Step(c, e)) && !Recoverable(Step(c, e), |c.dumps|)
  {
    assert LosesPage(c, e, p);
    DumpRecoverableIff(c, e);
  }

  /** Stopping the profiler empties the bookkeeping, so the next request loses the holes of the last dump. */
  lemma StopForgets(c: Chain, e: Event, p: Page)
    requires Shaped(c) && e.PreCheckpoint? && Abandoned(c.(prev := map[]), e, p)
    ensures Shaped(Step(Step(c, StopProfiling), e)) && !Recoverable(Step(Step(c, StopProfiling), e), |c.dumps|)
  {
    var d := Step(c, StopProfiling);
    assert LosesPage(d, e, p);
    DumpRecoverableIff(d, e);
  }

  /** The holes of a scheduled pre-dump never enter the bookkeeping, so the next request loses them. */
  lemma ScheduledHoleForgotten(c: Chain, scheduled: Event, e: Event, p: Page)
    requires Shaped(c) && scheduled.ScheduledPreDump? && e.PreCheckpoint? && Shaped(Step(c, scheduled))
    requires Abandoned(Step(c, scheduled), e, p) && forall s :: s in c.prev ==> !(s <= p < c.prev[s])
    ensures Shaped(Step(Step(c, scheduled), e)) && !Recoverable(Step(Step(c, scheduled), e), |c.dumps| + 1)
  {
    var d := Step(c, scheduled);
    assert LosesPage(d, e, p);
    DumpRecoverableIff(d, e);
  }

  /** A range under the same start address that no longer reaches the page. */
  ghost predicate Shrinks(before: seq<AddrRange>, after: seq<AddrRange>, p: Page) {
    exists i, j :: 0 <= i < |before| && 0 <= j < |after| && before[i].start == after[j].start <= p &&
                   after[j].end <= p < before[i].end
  }

  /** The list is complete: while the bookkeeping is that of the last dump, a page is lost only by a scheduled
      pre-dump, by an exclude file that was not written, or by a range that shrinks. */
  lemma LossCauses(c: Chain, before: seq<AddrRange>, beforeWritten: bool, e: Event, p: Page)
    requires Shaped(c) && |c.dumps| > 0 && c.holes[|c.holes| - 1] == Effective(before, beforeWritten)
    requires c.prev == SetOf(before) && DistinctStarts(before) && LosesPage(c, e, p)
    ensures e.ScheduledPreDump? || (|e.hot| > 10 && !e.fileWritten) || Shrinks(before, e.hot, p)
  {
    SetOfHas(before);
    SetOfHas(e.hot);
    var i :| 0 <= i < |before| && before[i].start <= p < before[i].end;
    assert before[i].start in SetOf(before);
    if e.PreCheckpoint? && Effective(e.hot, e.fileWritten) == e.hot {
      var j :| 0 <= j < |e.hot| && e.hot[j].start == before[i].start;
      assert !(e.hot[j].start <= p < e.hot[j].end);
    }
  }

  // ---------------------------------------------------------------- the smallest runs

  const ONE_PAGE: map<Page, Content> := map[0 := 7]
  const HOT: seq<AddrRange> := [AddrRange(0, 4096)]

  /** The last event of the run takes a hole for the page's content. */
  ghost predicate LosesAtEnd(events: seq<Event>) {
    AllHonest(events) && Shaped(Run(events)) && |Run(events).dumps| > 0 &&
    !Recoverable(Run(events), |Run(events).dumps| - 1)
  }

  /** A chain of one dump that left the only page out. */
  ghost predicate OneHole(c: Chain) {
    Shaped(c) && |c.dumps| == 1 && Recoverable(c, 0) && c.mems == [ONE_PAGE] && Covers(c.holes[0], 0)
  }

  lemma FirstDump(e: Event)
    requires MakesDump(e) && !e.onParent && e.mem == ONE_PAGE && Covers(Effective(e.hot, e.fileWritten), 0)
    ensures AllHonest([e]) && OneHole(Run([e])) && Run([e]).prev == (if e.PreCheckpoint? then SetOf(e.hot) else map[])
  {
    assert [e][..0] == [];
    RunShaped([e]);
    assert Run([e]) == Step(EMPTY, e);
    DumpRecoverableIff(EMPTY, e);
  }

  /** An event that only changes the bookkeeping. */
  lemma BookkeepingNext(events: seq<Event>, e: Event)
    requires AllHonest(events) && OneHole(Run(events)) && !MakesDump(e)
    ensures AllHonest(events + [e]) && OneHole(Run(events + [e]))
    ensures Run(events + [e]).prev == if e.StopProfiling? then map[] else SetOf(e.hot)
  {
    RunNext(events, e);
    var c, d := Run(events), Step(Run(events), e);
    StepShaped(c, e);
    assert d.dumps == c.dumps && d.mems == c.mems && d.holes == c.holes;
    RecoverableStable(c, e, 0);
    hide Run, Recoverable, AllHonest;
  }

  /** One more event at the end of a run. */
  lemma RunNext(events: seq<Event>, e: Event)
    requires AllHonest(events)
    ensures Shaped(Run(events)) && Run(events + [e]) == Step(Run(events), e)
    ensures AllHonest(events + [e]) <==> Honest(Run(events), e)
  {
    assert (events + [e])[..|events|] == events;
    RunShaped(events);
  }

  /** A dump of the unwritten page on its parent, which neither excludes it nor takes it as cooled. */
  lemma LosesNext(events: seq<Event>, e: Event)
    requires AllHonest(events) && OneHole(Run(events)) && MakesDump(e)
    requires e.mem == ONE_PAGE && e.written == {} && e.onParent && !Covers(Effective(e.hot, e.fileWritten), 0)
    requires e.PreCheckpoint? ==> !TurnedCold(Run(events).prev, SetOf(e.hot), 0)
    ensures LosesAtEnd(events + [e])
  {
    RunNext(events, e);
    StepCounts(Run(events), e);
    assert LosesPage(Run(events), e, 0);
    DumpRecoverableIff(Run(events), e);
    hide Run, Step, Recoverable, AllHonest, Shaped;
  }

  lemma HotCovers()
    ensures Covers(HOT, 0) && !Covers([], 0)
  {
    assert HOT[0].start <= 0 < HOT[0].end;
  }

  /** The scheduler dumps after the page has cooled. */
  lemma ScheduledDumpRun() returns (events: seq<Event>)
    ensures |events| == 2 && events[0].PreCheckpoint? && events[1].ScheduledPreDump? && LosesAtEnd(events)
  {
    hide LosesAtEnd, OneHole, AllHonest, Run, SetOf, Covers;
    var first := PreCheckpoint(ONE_PAGE, {}, false, HOT, true);
    HotCovers();
    FirstDump(first);
    LosesNext([first], ScheduledPreDump(ONE_PAGE, {}, true, [], true));
    events := [first] + [ScheduledPreDump(ONE_PAGE, {}, true, [], true)];
  }

  /** Something other than a dump happens between two requests and takes the range out of the bookkeeping. */
  lemma BookkeepingRun(between: Event) returns (events: seq<Event>)
    requires between == StopProfiling || between == FailedPreCheckpoint([])
    ensures |events| == 3 && events[0].PreCheckpoint? && events[1] == between && events[2].PreCheckpoint?
    ensures LosesAtEnd(events)
  {
    assert SetOf([]) == map[];
    hide LosesAtEnd, OneHole, AllHonest, Run, SetOf, Covers;
    var first, e := PreCheckpoint(ONE_PAGE, {}, false, HOT, true), PreCheckpoint(ONE_PAGE, {}, true, [], true);
    HotCovers();
    FirstDump(first);
    BookkeepingNext([first], between);
    LosesNext([first] + [between], e);
    events := [first] + [between] + [e];
  }

  /** A request follows a scheduled pre-dump that left the page out. */
  lemma ScheduledHoleRun() returns (events: seq<Event>)
    ensures |events| == 2 && events[0].ScheduledPreDump? && events[1].PreCheckpoint? && LosesAtEnd(events)
  {
    hide LosesAtEnd, OneHole, AllHonest, Run, SetOf, Covers;
    var first := ScheduledPreDump(ONE_PAGE, {}, false, HOT, true);
    HotCovers();
    FirstDump(first);
    LosesNext([first], PreCheckpoint(ONE_PAGE, {}, true, [], true));
    events := [first] + [PreCheckpoint(ONE_PAGE, {}, true, [], true)];
  }

  /** Eleven hot ranges, the first of which covers the page. */
  function Eleven(): (hot: seq<AddrRange>)
    ensures |hot| == 11 && hot[0] == AddrRange(0, 4096)
  {
    seq(11, i requires 0 <= i < 11 => AddrRange(i * 4096, i * 4096 + 4096))
  }

  /** The second of two equal requests cannot write its exclude file. */
  lemma UnwrittenFileRun() returns (events: seq<Event>)
    ensures |events| == 2 && events[0].PreCheckpoint? && events[1].PreCheckpoint? && events[0].hot == events[1].hot
    ensures events[0].fileWritten && !events[1].fileWritten && LosesAtEnd(events)
  {
    hide LosesAtEnd, OneHole, AllHonest, Run, SetOf, Eleven;
    var hot := Eleven();
    var first := PreCheckpoint(ONE_PAGE, {}, false, hot, true);
    assert hot[0].start <= 0 < hot[0].end;
    FirstDump(first);
    LosesNext([first], PreCheckpoint(ONE_PAGE, {}, true, hot, false));
    events := [first] + [PreCheckpoint(ONE_PAGE, {}, true, hot, false)];
  }
}
