/** The hot/cold classifier (pkg/profiler/heat.go): per-chunk sliding windows in a map that is
    updated in place, proved against the history of scans since the last reset. */
module Heat {
  import opened Addresses
  import opened Scan

  const WINDOW: nat := 10

  datatype Key = Key(vmaStart: nat, chunkIdx: nat)

  datatype ChunkHeat = ChunkHeat(
    chunkStart: nat,
    chunkEnd: nat,
    ratios: seq<real>,
    head: nat,
    count: nat,
    consecutiveHot: nat,
    isHot: bool,
    lastDirty: nat,
    lastTotal: nat)

  datatype HotRegion = HotRegion(start: nat, end: nat, writtenRatio: real, consecutiveHot: nat)

  /** What one scan says about one chunk. */
  datatype Observation = Observation(key: Key, start: nat, end: nat, dirty: nat, pages: nat) {
    function Ratio(): real {
      if pages > 0 then dirty as real / pages as real else 0.0
    }
  }

  predicate GoodScan(scan: seq<ScanResult>) {
    forall i :: 0 <= i < |scan| ==> scan[i].vmaStart <= scan[i].vmaEnd
  }

  function Observe(r: ScanResult, ci: nat): Observation
    requires r.vmaStart <= r.vmaEnd
  {
    var start, end := ChunkStart(r.vmaStart, ci), ChunkEnd(r.vmaStart, r.vmaEnd, ci);
    Observation(Key(r.vmaStart, ci), start, end, if ci < |r.chunkDirty| then r.chunkDirty[ci] else 0,
                if start <= end then (end - start) / PAGE else 0)
  }

  // ---------------------------------------------------------------- the history specification

  /** The observations of the first `n` chunks of a VMA. */
  function Chunks(r: ScanResult, n: nat): seq<Observation>
    requires r.vmaStart <= r.vmaEnd
  {
    if n == 0 then [] else Chunks(r, n - 1) + [Observe(r, n - 1)]
  }

  /** All observations of a scan, in order. */
  function Flatten(scan: seq<ScanResult>): seq<Observation>
    requires GoodScan(scan)
  {
    if scan == [] then []
    else
      var r := scan[|scan| - 1];
      Flatten(scan[..|scan| - 1]) + Chunks(r, ChunkCount(r.vmaStart, r.vmaEnd))
  }

  /** The observations of one chunk among `obs`. */
  function About(obs: seq<Observation>, key: Key): seq<Observation> {
    if obs == [] then []
    else
      var last := obs[|obs| - 1];
      About(obs[..|obs| - 1], key) + if last.key == key then [last] else []
  }

  predicate GoodHistory(history: seq<seq<ScanResult>>) {
    forall i :: 0 <= i < |history| ==> GoodScan(history[i])
  }

  /** Everything observed of a chunk during its present unbroken presence since the last reset. */
  function Presence(history: seq<seq<ScanResult>>, key: Key): seq<Observation>
    requires GoodHistory(history)
  {
    if history == [] then []
    else
      var now := About(Flatten(history[|history| - 1]), key);
      if now == [] then [] else Presence(history[..|history| - 1], key) + now
  }

  /** Length of the longest suffix of observations above the threshold. */
  function HotRun(p: seq<Observation>, threshold: real): nat {
    if p == [] || p[|p| - 1].Ratio() <= threshold then 0 else 1 + HotRun(p[..|p| - 1], threshold)
  }

  lemma {:induction false} HotRunIsLongestSuffix(p: seq<Observation>, threshold: real)
    ensures HotRun(p, threshold) <= |p|
    ensures forall i :: |p| - HotRun(p, threshold) <= i < |p| ==> p[i].Ratio() > threshold
    ensures HotRun(p, threshold) < |p| ==> p[|p| - HotRun(p, threshold) - 1].Ratio() <= threshold
  {
    if p != [] && p[|p| - 1].Ratio() > threshold {
      HotRunIsLongestSuffix(p[..|p| - 1], threshold);
    }
  }

  function Min(a: nat, b: nat): nat {
    if a < b then a else b
  }

  /** Element `j` of the ring buffer, oldest first. */
  function Ring(ratios: seq<real>, head: nat, count: nat, j: nat): real
    requires |ratios| == WINDOW && head < WINDOW && j < count <= WINDOW
  {
    ratios[(head + WINDOW - count + j) % WINDOW]
  }

  /** The state of a chunk says exactly what its presence `p` says. */
  ghost predicate Fits(st: ChunkHeat, p: seq<Observation>, threshold: real, consecutive: int) {
    p != [] && |st.ratios| == WINDOW && st.head < WINDOW && st.count == Min(|p|, WINDOW) &&
    (forall j :: 0 <= j < st.count ==> Ring(st.ratios, st.head, st.count, j) == p[|p| - st.count + j].Ratio()) &&
    st.consecutiveHot == HotRun(p, threshold) && st.isHot == (HotRun(p, threshold) >= consecutive) &&
    var last := p[|p| - 1];
    st.chunkStart == last.start && st.chunkEnd == last.end && st.lastDirty == last.dirty && st.lastTotal == last.pages
  }

  ghost predicate Tracks(states: map<Key, ChunkHeat>, history: seq<seq<ScanResult>>, threshold: real, consecutive: int)
    requires GoodHistory(history)
  {
    forall key :: (key in states <==> Presence(history, key) != []) &&
                  (key in states ==> Fits(states[key], Presence(history, key), threshold, consecutive))
  }

  // ---------------------------------------------------------------- in terms of the scans alone

  /** The pages of a chunk, and how many of them the scan found dirty. */
  function PagesOfChunk(r: ScanResult, c: nat): int {
    (ChunkEnd(r.vmaStart, r.vmaEnd, c) - ChunkStart(r.vmaStart, c)) / PAGE
  }

  function DirtyOfChunk(r: ScanResult, c: nat): nat {
    if c < |r.chunkDirty| then r.chunkDirty[c] else 0
  }

  /** The scan found more than the threshold's share of the chunk dirty. */
  predicate Exceeds(r: ScanResult, c: nat, threshold: real) {
    if PagesOfChunk(r, c) <= 0 then 0.0 > threshold
    else DirtyOfChunk(r, c) as real > threshold * PagesOfChunk(r, c) as real
  }

  /** Result `i` of the scan counted the chunk. */
  predicate Counted(scan: seq<ScanResult>, i: nat, key: Key) {
    i < |scan| && scan[i].vmaStart <= scan[i].vmaEnd && scan[i].vmaStart == key.vmaStart &&
    key.chunkIdx < ChunkCount(scan[i].vmaStart, scan[i].vmaEnd)
  }

  ghost predicate HotIn(scan: seq<ScanResult>, key: Key, threshold: real) {
    exists i: nat :: Counted(scan, i, key) && Exceeds(scan[i], key.chunkIdx, threshold)
  }

  /** Each of the last `n` scans counted the chunk above the threshold. */
  ghost predicate HotFor(history: seq<seq<ScanResult>>, key: Key, threshold: real, n: int) {
    n <= |history| && forall k :: |history| - n <= k < |history| && 0 <= k ==> HotIn(history[k], key, threshold)
  }

  /** No two non-empty VMAs start at the same address. */
  predicate DistinctVmas(scan: seq<ScanResult>) {
    GoodScan(scan) &&
    forall i, j :: 0 <= i < j < |scan| && scan[i].vmaStart < scan[i].vmaEnd && scan[j].vmaStart < scan[j].vmaEnd ==>
                     scan[i].vmaStart != scan[j].vmaStart
  }

  ghost predicate AllDistinct(history: seq<seq<ScanResult>>) {
    forall k :: 0 <= k < |history| ==> DistinctVmas(history[k])
  }

  lemma {:induction false} AboutBoth(a: seq<Observation>, b: seq<Observation>, key: Key)
    ensures About(a + b, key) == About(a, key) + About(b, key)
  {
    if b == [] {
      assert a + b == a;
    } else {
      assert (a + b)[..|a + b| - 1] == a + b[..|b| - 1];
      AboutBoth(a, b[..|b| - 1], key);
    }
  }

  lemma {:induction false} AboutChunks(r: ScanResult, n: nat, key: Key)
    requires r.vmaStart <= r.vmaEnd
    ensures About(Chunks(r, n), key) ==
            if key.vmaStart == r.vmaStart && key.chunkIdx < n then [Observe(r, key.chunkIdx)] else []
  {
    if n > 0 {
      AboutChunks(r, n - 1, key);
      AboutBoth(Chunks(r, n - 1), [Observe(r, n - 1)], key);
      assert [Observe(r, n - 1)][..0] == [];
      hide ChunkStart, ChunkEnd;
    }
  }

  lemma CountedOnce(scan: seq<ScanResult>, i: nat, j: nat, key: Key)
    requires DistinctVmas(scan) && Counted(scan, i, key) && Counted(scan, j, key)
    ensures i == j
  {
    LastChunkStarts(scan[i].vmaStart, scan[i].vmaEnd, key.chunkIdx);
    LastChunkStarts(scan[j].vmaStart, scan[j].vmaEnd, key.chunkIdx);
    hide ChunkCount, ChunkStart, ChunkEnd;
  }

  /** What the last VMA of a scan adds. */
  lemma AboutLast(scan: seq<ScanResult>, key: Key)
    requires GoodScan(scan) && scan != []
    ensures var n := |scan| - 1;
            About(Flatten(scan), key) ==
            About(Flatten(scan[..n]), key) + if Counted(scan, n, key) then [Observe(scan[n], key.chunkIdx)] else []
  {
    var init, r := scan[..|scan| - 1], scan[|scan| - 1];
    var n := ChunkCount(r.vmaStart, r.vmaEnd);
    AboutChunks(r, n, key);
    AboutBoth(Flatten(init), Chunks(r, n), key);
    FlattenLast(scan);
    hide Flatten, Chunks, About, Observe, ChunkCount;
  }

  lemma {:induction false} AboutNone(scan: seq<ScanResult>, key: Key)
    requires GoodScan(scan) && forall i: nat :: !Counted(scan, i, key)
    ensures About(Flatten(scan), key) == []
  {
    if scan != [] {
      var n := |scan| - 1;
      AboutLast(scan, key);
      assert !Counted(scan, n, key);
      forall i: nat
        ensures !Counted(scan[..n], i, key)
      {
        assert !Counted(scan, i, key);
      }
      AboutNone(scan[..n], key);
    }
  }

  /** A scan of distinct VMAs observes each chunk once at most. */
  lemma {:induction false} AboutScan(scan: seq<ScanResult>, i: nat, key: Key)
    requires DistinctVmas(scan) && Counted(scan, i, key)
    ensures About(Flatten(scan), key) == [Observe(scan[i], key.chunkIdx)]
  {
    var n := |scan| - 1;
    AboutLast(scan, key);
    hide Flatten, About, Observe, ChunkCount;
    if i == n {
      forall k: nat
        ensures !Counted(scan[..n], k, key)
      {
        if Counted(scan[..n], k, key) {
          assert Counted(scan, k, key);
          CountedOnce(scan, k, n, key);
        }
      }
      AboutNone(scan[..n], key);
    } else {
      if Counted(scan, n, key) {
        CountedOnce(scan, i, n, key);
      }
      assert Counted(scan[..n], i, key);
      AboutScan(scan[..n], i, key);
    }
  }

  lemma FlattenLast(scan: seq<ScanResult>)
    requires GoodScan(scan) && scan != []
    ensures var r := scan[|scan| - 1];
            Flatten(scan) == Flatten(scan[..|scan| - 1]) + Chunks(r, ChunkCount(r.vmaStart, r.vmaEnd))
  {
  }

  /** The ratio of an observation exceeds the threshold exactly when the scan's count does. */
  lemma ExceedsIff(r: ScanResult, c: nat, threshold: real)
    requires r.vmaStart <= r.vmaEnd && c < ChunkCount(r.vmaStart, r.vmaEnd)
    ensures Observe(r, c).Ratio() > threshold <==> Exceeds(r, c, threshold)
    ensures PagesOfChunk(r, c) > 0 ==>
              Observe(r, c).Ratio() * PagesOfChunk(r, c) as real == DirtyOfChunk(r, c) as real
  {
    LastChunkStarts(r.vmaStart, r.vmaEnd, c);
    var dirty, pages := DirtyOfChunk(r, c), PagesOfChunk(r, c);
    assert pages >= 0 && Observe(r, c).dirty == dirty && Observe(r, c).pages == pages;
    if pages > 0 {
      ShareIff(dirty as real, pages as real, threshold);
    }
  }

  lemma ShareIff(dirty: real, pages: real, threshold: real)
    requires pages > 0.0
    ensures dirty / pages > threshold <==> dirty > threshold * pages
    ensures dirty / pages * pages == dirty
  {
    var q := dirty / pages;
    assert q * pages == dirty;
    if q > threshold {
      assert (q - threshold) * pages > 0.0;
    } else {
      assert (threshold - q) * pages >= 0.0;
    }
  }

  lemma LastScan(history: seq<seq<ScanResult>>, key: Key, threshold: real)
    requires AllDistinct(history) && history != [] && GoodHistory(history)
    ensures var last := About(Flatten(history[|history| - 1]), key);
            |last| <= 1 && (HotIn(history[|history| - 1], key, threshold) <==>
                            last != [] && last[0].Ratio() > threshold)
  {
    var scan := history[|history| - 1];
    if i: nat :| Counted(scan, i, key) {
      AboutScan(scan, i, key);
      ExceedsIff(scan[i], key.chunkIdx, threshold);
      forall k: nat | Counted(scan, k, key)
        ensures k == i
      {
        CountedOnce(scan, i, k, key);
      }
      hide Flatten, About, Observe, Exceeds, Counted;
    } else {
      AboutNone(scan, key);
    }
  }

  /** The specification's run is at least `n` long exactly when the last `n` scans counted the chunk hot. */
  lemma {:induction false} HotRunIff(history: seq<seq<ScanResult>>, key: Key, threshold: real, n: nat)
    requires AllDistinct(history) && GoodHistory(history)
    ensures HotRun(Presence(history, key), threshold) >= n <==> HotFor(history, key, threshold, n)
    decreases n
  {
    if n > 0 && history != [] {
      var init := history[..|history| - 1];
      LastScan(history, key, threshold);
      HotRunIff(init, key, threshold, n - 1);
      HotForNext(history, key, threshold, n);
      hide HotFor, HotIn, AllDistinct, GoodHistory, Flatten;
      var last := About(Flatten(history[|history| - 1]), key);
      if last != [] {
        var p := Presence(init, key);
        assert Presence(history, key) == p + [last[0]];
        assert (p + [last[0]])[..|p|] == p;
      }
    }
  }

  /** The region is the chunk of one VMA of the scan, and its ratio times its pages are the dirty pages counted
      there. */
  ghost predicate RegionOf(scan: seq<ScanResult>, key: Key, h: HotRegion) {
    exists i: nat :: Counted(scan, i, key) && IsRegion(scan[i], key.chunkIdx, h)
  }

  predicate IsRegion(r: ScanResult, c: nat, h: HotRegion) {
    h.start == r.vmaStart + c * CHUNK && h.start < h.end <= r.vmaEnd &&
    (h.end == h.start + CHUNK || h.end == r.vmaEnd) &&
    (h.end - h.start >= PAGE ==>
       h.writtenRatio * ((h.end - h.start) / PAGE) as real ==
       (if c < |r.chunkDirty| then r.chunkDirty[c] else 0) as real)
  }

  /** The list names each chunk once that the last `n` scans counted above the threshold, and no other chunk. */
  ghost predicate HotExactly(hot: seq<HotRegion>, keys: seq<Key>, history: seq<seq<ScanResult>>, threshold: real,
                             n: int)
  {
    |hot| == |keys| && history != [] && (forall i, j :: 0 <= i < j < |keys| ==> keys[i] != keys[j]) &&
    (forall i :: 0 <= i < |hot| ==> RegionOf(history[|history| - 1], keys[i], hot[i])) &&
    (forall key :: key in keys <==> HotFor(history, key, threshold, n))
  }

  lemma LatestIsRegion(history: seq<seq<ScanResult>>, key: Key, h: HotRegion)
    requires AllDistinct(history) && GoodHistory(history) && Presence(history, key) != []
    requires var o := Presence(history, key)[|Presence(history, key)| - 1];
             h.start == o.start && h.end == o.end && h.writtenRatio == o.Ratio()
    ensures history != [] && RegionOf(history[|history| - 1], key, h)
  {
    var scan := history[|history| - 1];
    if forall i: nat :: !Counted(scan, i, key) {
      AboutNone(scan, key);
      assert false;
    }
    var i: nat :| Counted(scan, i, key);
    AboutScan(scan, i, key);
    RegionIs(scan[i], key.chunkIdx, h);
    hide Flatten, Counted, IsRegion;
  }

  lemma RegionIs(r: ScanResult, c: nat, h: HotRegion)
    requires r.vmaStart <= r.vmaEnd && c < ChunkCount(r.vmaStart, r.vmaEnd)
    requires h.start == Observe(r, c).start && h.end == Observe(r, c).end && h.writtenRatio == Observe(r, c).Ratio()
    ensures IsRegion(r, c, h)
  {
    ExceedsIff(r, c, 0.0);
    LastChunkStarts(r.vmaStart, r.vmaEnd, c);
  }

  lemma TracksExactly(states: map<Key, ChunkHeat>, history: seq<seq<ScanResult>>, threshold: real, consecutive: int,
                      key: Key)
    requires AllDistinct(history) && GoodHistory(history) && consecutive > 0
    requires Tracks(states, history, threshold, consecutive)
    ensures key in states && states[key].isHot <==> HotFor(history, key, threshold, consecutive)
  {
    HotRunIff(history, key, threshold, consecutive);
    hide HotFor, AllDistinct, Ring;
    assert key in states ==> Fits(states[key], Presence(history, key), threshold, consecutive);
  }

  lemma HotForNext(history: seq<seq<ScanResult>>, key: Key, threshold: real, n: nat)
    requires n > 0 && history != []
    ensures HotFor(history, key, threshold, n) <==>
            HotIn(history[|history| - 1], key, threshold) && HotFor(history[..|history| - 1], key, threshold, n - 1)
  {
    var init := history[..|history| - 1];
    hide HotIn;
    if HotFor(history, key, threshold, n) {
      forall k | |init| - (n - 1) <= k < |init| && 0 <= k
        ensures HotIn(init[k], key, threshold)
      {
        assert init[k] == history[k];
      }
    }
    if HotIn(history[|history| - 1], key, threshold) && HotFor(init, key, threshold, n - 1) {
      forall k | |history| - n <= k < |history| && 0 <= k
        ensures HotIn(history[k], key, threshold)
      {
        assert k < |init| ==> init[k] == history[k];
      }
    }
  }

  // ---------------------------------------------------------------- one observation

  const FRESH := ChunkHeat(0, 0, [0.0, 0.0, 0.0, 0.0, 0.0, 0.0, 0.0, 0.0, 0.0, 0.0], 0, 0, 0, false, 0, 0)

  /** The body of the inner loop of update. */
  function Push(st: ChunkHeat, o: Observation, threshold: real, consecutive: int): ChunkHeat
    requires |st.ratios| == WINDOW && st.head < WINDOW
  {
    var hot := if o.Ratio() > threshold then st.consecutiveHot + 1 else 0;
    ChunkHeat(o.start, o.end, st.ratios[st.head := o.Ratio()], (st.head + 1) % WINDOW,
              if st.count < WINDOW then st.count + 1 else st.count, hot, hot >= consecutive, o.dirty, o.pages)
  }

  /** Writing at the head drops the oldest element once the buffer is full, and nothing else. */
  lemma RingPush(ratios: seq<real>, head: nat, count: nat, x: real, j: nat)
    requires |ratios| == WINDOW && head < WINDOW && count <= WINDOW
    requires j < if count < WINDOW then count + 1 else count
    ensures var n := if count < WINDOW then count + 1 else count;
            Ring(ratios[head := x], (head + 1) % WINDOW, n, j)
            == if j == n - 1 then x else Ring(ratios, head, count, j + count + 1 - n)
  {
    var n := if count < WINDOW then count + 1 else count;
    var at := ((head + 1) % WINDOW + WINDOW - n + j) % WINDOW;
    assert at == (head + 1 + WINDOW - n + j) % WINDOW;
    if j < n - 1 {
      assert at != head;
    }
  }

  /** Pushing keeps the ring buffer equal to the last ten ratios, oldest first. */
  lemma PushFits(st: ChunkHeat, p: seq<Observation>, o: Observation, threshold: real, consecutive: int)
    requires if p == [] then st == FRESH else Fits(st, p, threshold, consecutive)
    ensures Fits(Push(st, o, threshold, consecutive), p + [o], threshold, consecutive)
  {
    hide Ring;
    var q, t := p + [o], Push(st, o, threshold, consecutive);
    assert q[..|q| - 1] == p;
    forall j | 0 <= j < t.count
      ensures Ring(t.ratios, t.head, t.count, j) == q[|q| - t.count + j].Ratio()
    {
      RingPush(st.ratios, st.head, st.count, o.Ratio(), j);
      assert q[|q| - 1] == o;
    }
    assert HotRun(q, threshold) == if o.Ratio() <= threshold then 0 else 1 + HotRun(p, threshold);
  }

  // ---------------------------------------------------------------- the classifier

  /** The map half way through a scan: chunks observed so far carry their new observations,
      the others are as before. */
  ghost predicate Midway(states: map<Key, ChunkHeat>, before: map<Key, ChunkHeat>, history: seq<seq<ScanResult>>,
                         done: seq<Observation>, threshold: real, consecutive: int)
    requires GoodHistory(history)
  {
    forall key :: MidwayAt(states, before, history, done, key, threshold, consecutive)
  }

  ghost predicate MidwayAt(states: map<Key, ChunkHeat>, before: map<Key, ChunkHeat>, history: seq<seq<ScanResult>>,
                           done: seq<Observation>, key: Key, threshold: real, consecutive: int)
    requires GoodHistory(history)
  {
    if About(done, key) == [] then
      (key in states <==> key in before) && (key in states ==> states[key] == before[key])
    else
      key in states && Fits(states[key], Presence(history, key) + About(done, key), threshold, consecutive)
  }

  lemma MidwayStep(states: map<Key, ChunkHeat>, before: map<Key, ChunkHeat>, history: seq<seq<ScanResult>>,
                   done: seq<Observation>, o: Observation, threshold: real, consecutive: int)
    requires GoodHistory(history) && Tracks(before, history, threshold, consecutive)
    requires Midway(states, before, history, done, threshold, consecutive)
    ensures var st := if o.key in states then states[o.key] else FRESH;
            |st.ratios| == WINDOW && st.head < WINDOW &&
            Midway(states[o.key := Push(st, o, threshold, consecutive)], before, history, done + [o], threshold,
                   consecutive)
  {
    MidwayHere(states, before, history, done, o, threshold, consecutive);
    hide Ring, HotRun, Push, Presence, Fits, Tracks, About;
    var st := if o.key in states then states[o.key] else FRESH;
    var next := states[o.key := Push(st, o, threshold, consecutive)];
    forall key: Key
      ensures MidwayAt(next, before, history, done + [o], key, threshold, consecutive)
    {
      if key != o.key {
        MidwayOther(states, next, before, history, done, o, key, threshold, consecutive);
      }
    }
  }

  /** A chunk that was not observed. */
  lemma MidwayOther(states: map<Key, ChunkHeat>, next: map<Key, ChunkHeat>, before: map<Key, ChunkHeat>,
                    history: seq<seq<ScanResult>>, done: seq<Observation>, o: Observation, key: Key, threshold: real,
                    consecutive: int)
    requires GoodHistory(history) && MidwayAt(states, before, history, done, key, threshold, consecutive)
    requires key != o.key && (key in next <==> key in states) && (key in states ==> next[key] == states[key])
    ensures MidwayAt(next, before, history, done + [o], key, threshold, consecutive)
  {
    AboutOther(done, o, key);
    hide About, Presence, Fits;
  }

  /** The observed chunk's own record. */
  lemma MidwayHere(states: map<Key, ChunkHeat>, before: map<Key, ChunkHeat>, history: seq<seq<ScanResult>>,
                   done: seq<Observation>, o: Observation, threshold: real, consecutive: int)
    requires GoodHistory(history) && Tracks(before, history, threshold, consecutive)
    requires Midway(states, before, history, done, threshold, consecutive)
    ensures var st := if o.key in states then states[o.key] else FRESH;
            |st.ratios| == WINDOW && st.head < WINDOW && About(done + [o], o.key) != [] &&
            Fits(Push(st, o, threshold, consecutive), Presence(history, o.key) + About(done + [o], o.key), threshold,
                 consecutive)
  {
    hide Ring, HotRun, Push, Presence;
    assert MidwayAt(states, before, history, done, o.key, threshold, consecutive);
    var st := if o.key in states then states[o.key] else FRESH;
    var p := Presence(history, o.key) + About(done, o.key);
    if About(done, o.key) == [] {
      assert p == Presence(history, o.key);
    }
    PushFits(st, p, o, threshold, consecutive);
    assert (done + [o])[..|done|] == done;
    assert Presence(history, o.key) + About(done + [o], o.key) == p + [o];
  }

  lemma AboutOther(done: seq<Observation>, o: Observation, key: Key)
    requires o.key != key
    ensures About(done + [o], key) == About(done, key)
  {
    assert (done + [o])[..|done|] == done;
  }

  /** Dropping the chunks that the scan did not see completes it. */
  lemma MidwayEnd(states: map<Key, ChunkHeat>, before: map<Key, ChunkHeat>, history: seq<seq<ScanResult>>,
                  results: seq<ScanResult>, seen: set<Key>, threshold: real, consecutive: int)
    requires GoodHistory(history) && GoodScan(results) && Tracks(before, history, threshold, consecutive)
    requires Midway(states, before, history, Flatten(results), threshold, consecutive)
    requires Seen(seen, Flatten(results))
    ensures GoodHistory(history + [results])
    ensures Tracks(map key | key in states && key in seen :: states[key], history + [results], threshold, consecutive)
  {
    var longer := history + [results];
    assert longer[..|longer| - 1] == history;
    hide Fits;
    var kept := map key | key in states && key in seen :: states[key];
    forall key: Key
      ensures key in kept <==> Presence(longer, key) != []
      ensures key in kept ==> Fits(kept[key], Presence(longer, key), threshold, consecutive)
    {
      assert MidwayAt(states, before, history, Flatten(results), key, threshold, consecutive);
    }
  }

  /** What the classifier reports of a chunk is its latest observation. */
  lemma LatestRatio(states: map<Key, ChunkHeat>, history: seq<seq<ScanResult>>, key: Key, threshold: real,
                    consecutive: int)
    requires GoodHistory(history) && Tracks(states, history, threshold, consecutive) && key in states
    ensures Presence(history, key) != []
    ensures var st, last := states[key], Presence(history, key)[|Presence(history, key)| - 1];
            |st.ratios| == WINDOW && st.head < WINDOW && st.chunkStart == last.start && st.chunkEnd == last.end &&
            st.ratios[(st.head - 1 + WINDOW) % WINDOW] == last.Ratio()
  {
    var st := states[key];
    assert Fits(st, Presence(history, key), threshold, consecutive);
    assert Ring(st.ratios, st.head, st.count, st.count - 1) == st.ratios[(st.head - 1 + WINDOW) % WINDOW];
  }

  ghost predicate Seen(seen: set<Key>, done: seq<Observation>) {
    forall key :: key in seen <==> About(done, key) != []
  }

  lemma SeenStep(seen: set<Key>, done: seq<Observation>, o: Observation)
    requires Seen(seen, done)
    ensures Seen(seen + {o.key}, done + [o])
  {
    assert (done + [o])[..|done|] == done;
  }

  lemma MidwayStart(states: map<Key, ChunkHeat>, history: seq<seq<ScanResult>>, threshold: real, consecutive: int)
    requires GoodHistory(history)
    ensures Midway(states, states, history, [], threshold, consecutive) && Seen({}, [])
  {
  }

  lemma ObservedKey(r: ScanResult, ci: nat)
    requires r.vmaStart <= r.vmaEnd
    ensures Observe(r, ci).key == Key(r.vmaStart, ci)
  {
  }

  class HeatClassifier {
    const hotThreshold: real
    const hotConsecutive: int
    var states: map<Key, ChunkHeat>
    /** The scans since the last reset. */
    ghost var history: seq<seq<ScanResult>>

    ghost predicate Valid()
      reads this
    {
      GoodHistory(history) && Tracks(states, history, hotThreshold, hotConsecutive)
    }

    constructor (hotThreshold: real, hotConsecutive: int)
      ensures Valid() && history == []
      ensures this.hotThreshold == hotThreshold && this.hotConsecutive == hotConsecutive
    {
      this.hotThreshold := hotThreshold;
      this.hotConsecutive := hotConsecutive;
      states := map[];
      history := [];
    }

    method Reset()
      modifies this
      ensures Valid() && history == [] && states == map[]
    {
      states := map[];
      history := [];
    }

    /** update: after it, the map says of every chunk what the longer history says, and the
        result lists each hot chunk once, with its latest ratio. */
    method Update(results: seq<ScanResult>) returns (hot: seq<HotRegion>, ghost keys: seq<Key>)
      requires Valid() && GoodScan(results)
      modifies this
      ensures Valid() && history == old(history) + [results]
      ensures Lists(hot, keys)
      ensures AllDistinct(history) && hotConsecutive > 0 ==>
                HotExactly(hot, keys, history, hotThreshold, hotConsecutive)
    {
      hide Midway, Tracks, Fits, Presence, Seen, Observe, AllDistinct, HotExactly;
      var seen: set<Key> := {};
      ghost var before := states;
      ghost var done: seq<Observation> := [];
      MidwayStart(states, history, hotThreshold, hotConsecutive);
      for i := 0 to |results|
        invariant done == Flatten(results[..i]) && history == old(history)
        invariant Midway(states, before, history, done, hotThreshold, hotConsecutive)
        invariant Seen(seen, done)
      {
        var r := results[i];
        var nChunks := ChunkCount(r.vmaStart, r.vmaEnd);
        ghost var base := done;
        assert results[..i + 1][..i] == results[..i];
        for ci := 0 to nChunks
          invariant done == base + Chunks(r, ci) && history == old(history)
          invariant Midway(states, before, history, done, hotThreshold, hotConsecutive)
          invariant Seen(seen, done)
        {
          ghost var o := Observe(r, ci);
          ObservedKey(r, ci);
          MidwayStep(states, before, history, done, o, hotThreshold, hotConsecutive);
          SeenStep(seen, done, o);
          Touch(r, ci);
          seen := seen + {Key(r.vmaStart, ci)};
          assert base + Chunks(r, ci) + [o] == base + Chunks(r, ci + 1);
          done := done + [o];
        }
      }
      assert results[..|results|] == results;
      MidwayEnd(states, before, history, results, seen, hotThreshold, hotConsecutive);
      states := map key | key in states && key in seen :: states[key];
      history := history + [results];
      hot, keys := CollectHot();
      if AllDistinct(history) && hotConsecutive > 0 {
        ListsExactly(hot, keys);
      }
    }

    lemma ListsExactly(hot: seq<HotRegion>, keys: seq<Key>)
      requires Valid() && Lists(hot, keys) && AllDistinct(history) && hotConsecutive > 0 && history != []
      ensures HotExactly(hot, keys, history, hotThreshold, hotConsecutive)
    {
      hide AllDistinct, Tracks, HotFor, RegionOf, Presence;
      forall i | 0 <= i < |hot|
        ensures RegionOf(history[|history| - 1], keys[i], hot[i])
      {
        LatestIsRegion(history, keys[i], hot[i]);
      }
      forall key: Key
        ensures key in keys <==> HotFor(history, key, hotThreshold, hotConsecutive)
      {
        TracksExactly(states, history, hotThreshold, hotConsecutive, key);
      }
    }

    /** One chunk of one VMA: find or create its state, then record the ratio. */
    method Touch(r: ScanResult, ci: nat)
      requires r.vmaStart <= r.vmaEnd
      requires Key(r.vmaStart, ci) in states ==>
                 |states[Key(r.vmaStart, ci)].ratios| == WINDOW && states[Key(r.vmaStart, ci)].head < WINDOW
      requires ci < ChunkCount(r.vmaStart, r.vmaEnd)
      modifies this`states
      ensures var o := Observe(r, ci);
              states == old(states)[o.key := Push(if o.key in old(states) then old(states)[o.key] else FRESH, o,
                                                  hotThreshold, hotConsecutive)]
    {
      var chunkStart := r.vmaStart + ci * CHUNK;
      var chunkEnd := chunkStart + CHUNK;
      if chunkEnd > r.vmaEnd {
        chunkEnd := r.vmaEnd;
      }
      LastChunkStarts(r.vmaStart, r.vmaEnd, ci);
      var chunkPages := (chunkEnd - chunkStart) / PAGE;
      var dirty := 0;
      if ci < |r.chunkDirty| {
        dirty := r.chunkDirty[ci];
      }
      var key := Key(r.vmaStart, ci);
      var state := if key in states then states[key] else FRESH;
      state := state.(chunkStart := chunkStart, chunkEnd := chunkEnd, lastDirty := dirty, lastTotal := chunkPages);
      var ratio := 0.0;
      if chunkPages > 0 {
        ratio := dirty as real / chunkPages as real;
      }
      state := state.(ratios := state.ratios[state.head := ratio]);
      state := state.(head := (state.head + 1) % WINDOW);
      if state.count < WINDOW {
        state := state.(count := state.count + 1);
      }
      if ratio > hotThreshold {
        state := state.(consecutiveHot := state.consecutiveHot + 1);
      } else {
        state := state.(consecutiveHot := 0);
      }
      state := state.(isHot := state.consecutiveHot >= hotConsecutive);
      states := states[key := state];
    }

    ghost predicate Lists(hot: seq<HotRegion>, keys: seq<Key>)
      reads this
      requires GoodHistory(history)
    {
      |hot| == |keys| &&
      (forall i, j :: 0 <= i < j < |keys| ==> keys[i] != keys[j]) &&
      (forall key :: key in keys <==> key in states && states[key].isHot) &&
      (forall i :: 0 <= i < |keys| ==>
                     Presence(history, keys[i]) != [] &&
                     var last := Presence(history, keys[i])[|Presence(history, keys[i])| - 1];
                     hot[i] == HotRegion(last.start, last.end, last.Ratio(), states[keys[i]].consecutiveHot))
    }

    /** The hot chunks, in whatever order the map yields them. */
    method CollectHot() returns (hot: seq<HotRegion>, ghost keys: seq<Key>)
      requires Valid()
      ensures Lists(hot, keys)
    {
      hide Tracks, Fits, Presence;
      hot, keys := [], [];
      var rest := states.Keys;
      while rest != {}
        invariant rest <= states.Keys && |hot| == |keys|
        invariant forall i, j :: 0 <= i < j < |keys| ==> keys[i] != keys[j]
        invariant forall key :: key in keys <==> key in states && key !in rest && states[key].isHot
        invariant forall i :: 0 <= i < |keys| ==>
                                Presence(history, keys[i]) != [] &&
                                var last := Presence(history, keys[i])[|Presence(history, keys[i])| - 1];
                                hot[i] == HotRegion(last.start, last.end, last.Ratio(), states[keys[i]].consecutiveHot)
        decreases rest
      {
        var key :| key in rest;
        rest := rest - {key};
        var st := states[key];
        if st.isHot {
          LatestRatio(states, history, key, hotThreshold, hotConsecutive);
          var idx := (st.head - 1 + WINDOW) % WINDOW;
          hot := hot + [HotRegion(st.chunkStart, st.chunkEnd, st.ratios[idx], st.consecutiveHot)];
          keys := keys + [key];
        }
      }
    }
  }

  lemma LastChunkStarts(start: nat, end: nat, ci: nat)
    requires start <= end && ci < ChunkCount(start, end)
    ensures start <= ChunkStart(start, ci) < ChunkEnd(start, end, ci) <= end
  {
    assert start < end;
    ChunksPartition(start, end, ci, start);
  }

  // ---------------------------------------------------------------- what the hot list means

  /** The VMAs of a scan do not overlap. */
  predicate Disjoint(scan: seq<ScanResult>) {
    GoodScan(scan) &&
    forall i, j :: 0 <= i < j < |scan| ==> scan[i].vmaEnd <= scan[j].vmaStart || scan[j].vmaEnd <= scan[i].vmaStart
  }

  /** The observation is a chunk of some VMA of the scan. */
  ghost predicate FromScan(scan: seq<ScanResult>, o: Observation)
    requires GoodScan(scan)
  {
    exists i :: 0 <= i < |scan| && ChunkIn(scan[i], o)
  }

  ghost predicate ChunkIn(r: ScanResult, o: Observation)
    requires r.vmaStart <= r.vmaEnd
  {
    o.key.vmaStart == r.vmaStart && o.key.chunkIdx < ChunkCount(r.vmaStart, r.vmaEnd) && o == Observe(r, o.key.chunkIdx)
  }

  lemma {:induction false} ChunksIn(r: ScanResult, n: nat)
    requires r.vmaStart <= r.vmaEnd && n <= ChunkCount(r.vmaStart, r.vmaEnd)
    ensures forall o :: o in Chunks(r, n) ==> ChunkIn(r, o)
  {
    if n > 0 {
      ChunksIn(r, n - 1);
    }
  }

  lemma {:induction false} FlattenFromScan(scan: seq<ScanResult>)
    requires GoodScan(scan)
    ensures forall o :: o in Flatten(scan) ==> FromScan(scan, o)
  {
    if scan != [] {
      var rest, r := scan[..|scan| - 1], scan[|scan| - 1];
      FlattenFromScan(rest);
      ChunksIn(r, ChunkCount(r.vmaStart, r.vmaEnd));
      forall o | o in Flatten(scan)
        ensures FromScan(scan, o)
      {
        if o in Flatten(rest) {
          var i :| 0 <= i < |rest| && ChunkIn(rest[i], o);
          assert ChunkIn(scan[i], o);
        } else {
          assert ChunkIn(scan[|scan| - 1], o);
        }
      }
    }
  }

  lemma {:induction false} AboutMembers(obs: seq<Observation>, key: Key)
    ensures forall o :: o in About(obs, key) ==> o in obs && o.key == key
  {
    if obs != [] {
      AboutMembers(obs[..|obs| - 1], key);
    }
  }

  /** The latest observation of a present chunk is one of the last scan's chunks. */
  lemma LatestFromScan(history: seq<seq<ScanResult>>, key: Key)
    requires GoodHistory(history) && Presence(history, key) != []
    ensures history != []
    ensures var o := Presence(history, key)[|Presence(history, key)| - 1];
            o.key == key && FromScan(history[|history| - 1], o)
  {
    var scan := history[|history| - 1];
    var now := About(Flatten(scan), key);
    AboutMembers(Flatten(scan), key);
    FlattenFromScan(scan);
    var o := Presence(history, key)[|Presence(history, key)| - 1];
    assert o == now[|now| - 1] && o in now;
  }

  /** The chunks of a scan of disjoint VMAs are non-empty and disjoint. */
  lemma ChunksDisjoint(scan: seq<ScanResult>, a: Observation, b: Observation)
    requires Disjoint(scan) && FromScan(scan, a) && FromScan(scan, b) && a.key != b.key
    ensures a.start < a.end && b.start < b.end && (a.end <= b.start || b.end <= a.start)
  {
    hide ChunkStart, ChunkEnd, ChunkCount;
    var i :| 0 <= i < |scan| && ChunkIn(scan[i], a);
    var j :| 0 <= j < |scan| && ChunkIn(scan[j], b);
    LastChunkStarts(scan[i].vmaStart, scan[i].vmaEnd, a.key.chunkIdx);
    LastChunkStarts(scan[j].vmaStart, scan[j].vmaEnd, b.key.chunkIdx);
    if i == j {
      ChunkOrder(scan[i].vmaStart, scan[i].vmaEnd, a.key.chunkIdx, b.key.chunkIdx);
    }
  }

  lemma ChunkOrder(start: nat, end: nat, c: nat, d: nat)
    requires c != d
    ensures ChunkEnd(start, end, c) <= ChunkStart(start, d) || ChunkEnd(start, end, d) <= ChunkStart(start, c)
  {
    if c < d {
      assert (c + 1) * CHUNK <= d * CHUNK;
    } else {
      assert (d + 1) * CHUNK <= c * CHUNK;
    }
  }

  /** The ratios of a counted scan are between 0 and 1. */
  lemma RatioBounded(scan: seq<ScanResult>, o: Observation)
    requires GoodScan(scan) && FromScan(scan, o)
    requires forall i :: 0 <= i < |scan| ==> CountOf(scan[i], scan[i].vmaStart, scan[i].vmaEnd)
    ensures 0.0 <= o.Ratio() <= 1.0
  {
    var i :| 0 <= i < |scan| && ChunkIn(scan[i], o);
    assert o.dirty <= o.pages;
    if o.pages > 0 {
      QuotientBounded(o.dirty, o.pages);
    }
  }

  lemma QuotientBounded(a: nat, b: nat)
    requires a <= b && b > 0
    ensures 0.0 <= a as real / b as real <= 1.0
  {
  }

  function Bytes(regions: seq<HotRegion>): int {
    if regions == [] then 0
    else
      var last := regions[|regions| - 1];
      Bytes(regions[..|regions| - 1]) + last.end - last.start
  }

  function ScannedBytes(scan: seq<ScanResult>): nat
    requires GoodScan(scan)
  {
    if scan == [] then 0
    else ScannedBytes(scan[..|scan| - 1]) + (scan[|scan| - 1].vmaEnd - scan[|scan| - 1].vmaStart)
  }

  ghost function Span(lo: nat, hi: nat): (s: set<nat>)
    ensures forall a :: a in s <==> lo <= a < hi
    decreases hi
  {
    if lo < hi then Span(lo, hi - 1) + {hi - 1} else {}
  }

  lemma {:induction false} SpanSize(lo: nat, hi: nat)
    requires lo <= hi
    ensures |Span(lo, hi)| == hi - lo
    decreases hi - lo
  {
    if lo == hi {
      assert Span(lo, hi) == {};
    } else {
      SpanSize(lo, hi - 1);
      assert Span(lo, hi) == Span(lo, hi - 1) + {hi - 1};
    }
  }

  ghost function Covered(regions: seq<HotRegion>): set<nat> {
    if regions == [] then {}
    else Covered(regions[..|regions| - 1]) + Span(regions[|regions| - 1].start, regions[|regions| - 1].end)
  }

  ghost function Mapped(scan: seq<ScanResult>): set<nat> {
    if scan == [] then {} else Mapped(scan[..|scan| - 1]) + Span(scan[|scan| - 1].vmaStart, scan[|scan| - 1].vmaEnd)
  }

  lemma {:induction false} MappedSize(scan: seq<ScanResult>)
    requires GoodScan(scan)
    ensures |Mapped(scan)| <= ScannedBytes(scan)
  {
    if scan != [] {
      MappedSize(scan[..|scan| - 1]);
      SpanSize(scan[|scan| - 1].vmaStart, scan[|scan| - 1].vmaEnd);
      var rest, last := scan[..|scan| - 1], scan[|scan| - 1];
      assert |Mapped(scan)| <= |Mapped(rest)| + |Span(last.vmaStart, last.vmaEnd)|;
    }
  }

  lemma {:induction false} MappedHas(scan: seq<ScanResult>, i: nat, a: nat)
    requires i < |scan| && scan[i].vmaStart <= a < scan[i].vmaEnd
    ensures a in Mapped(scan)
  {
    if i < |scan| - 1 {
      MappedHas(scan[..|scan| - 1], i, a);
    }
  }

  ghost predicate Separate(regions: seq<HotRegion>) {
    (forall i :: 0 <= i < |regions| ==> regions[i].start < regions[i].end) &&
    (forall i, j :: 0 <= i < j < |regions| ==>
                      regions[i].end <= regions[j].start || regions[j].end <= regions[i].start)
  }

  lemma {:induction false} CoveredBy(regions: seq<HotRegion>, a: nat) returns (i: nat)
    requires a in Covered(regions)
    ensures i < |regions| && regions[i].start <= a < regions[i].end
  {
    var last := |regions| - 1;
    if a in Covered(regions[..last]) {
      i := CoveredBy(regions[..last], a);
    } else {
      i := last;
    }
  }

  lemma {:induction false} CoveredSize(regions: seq<HotRegion>)
    requires Separate(regions)
    ensures |Covered(regions)| == Bytes(regions)
  {
    if regions != [] {
      var rest, r := regions[..|regions| - 1], regions[|regions| - 1];
      CoveredSize(rest);
      SpanSize(r.start, r.end);
      forall a | a in Covered(rest)
        ensures a !in Span(r.start, r.end)
      {
        var i := CoveredBy(rest, a);
        assert regions[i] == rest[i];
      }
      assert |Covered(regions)| == |Covered(rest)| + |Span(r.start, r.end)|;
    }
  }

  /** The region is a chunk of some VMA of the scan. */
  ghost predicate IsChunk(scan: seq<ScanResult>, r: HotRegion) {
    exists v, c: nat :: 0 <= v < |scan| && ChunkAt(scan[v], c, r)
  }

  ghost predicate ChunkAt(v: ScanResult, c: nat, r: HotRegion) {
    v.vmaStart <= v.vmaEnd && c < ChunkCount(v.vmaStart, v.vmaEnd) &&
    r.start == ChunkStart(v.vmaStart, c) && r.end == ChunkEnd(v.vmaStart, v.vmaEnd, c)
  }

  /** A VMA that was scanned before and still has an address has not lost its end. */
  ghost predicate NoVmaShrinks(before: seq<ScanResult>, after: seq<ScanResult>) {
    forall i, j, a :: 0 <= i < |before| && 0 <= j < |after| && Maps(before[i], a) && Maps(after[j], a) ==>
                        before[i].vmaEnd <= after[j].vmaEnd
  }

  ghost predicate Maps(v: ScanResult, a: nat) {
    v.vmaStart <= a < v.vmaEnd
  }

  /** While no VMA shrinks, a hot region that starts where an earlier one did is at least as long. */
  lemma HotRegionKept(before: seq<ScanResult>, after: seq<ScanResult>, r: HotRegion, s: HotRegion)
    requires NoVmaShrinks(before, after) && IsChunk(before, r) && IsChunk(after, s) && r.start == s.start
    ensures r.end <= s.end
  {
    var i, c: nat :| 0 <= i < |before| && ChunkAt(before[i], c, r);
    var j, d: nat :| 0 <= j < |after| && ChunkAt(after[j], d, s);
    LastChunkStarts(before[i].vmaStart, before[i].vmaEnd, c);
    LastChunkStarts(after[j].vmaStart, after[j].vmaEnd, d);
    assert Maps(before[i], r.start) && Maps(after[j], r.start);
  }

  /** Hot regions of disjoint VMAs are non-empty, disjoint, and together no larger than what was scanned. */
  lemma HotRegionsFit(history: seq<seq<ScanResult>>, hot: seq<HotRegion>, keys: seq<Key>)
    requires GoodHistory(history) && history != [] && Disjoint(history[|history| - 1])
    requires |hot| == |keys| && forall i, j :: 0 <= i < j < |keys| ==> keys[i] != keys[j]
    requires forall i :: 0 <= i < |keys| ==>
                           Presence(history, keys[i]) != [] &&
                           hot[i].start == Presence(history, keys[i])[|Presence(history, keys[i])| - 1].start &&
                           hot[i].end == Presence(history, keys[i])[|Presence(history, keys[i])| - 1].end
    ensures Separate(hot) && Bytes(hot) <= ScannedBytes(history[|history| - 1])
    ensures forall i :: 0 <= i < |hot| ==> IsChunk(history[|history| - 1], hot[i])
  {
    var scan := history[|history| - 1];
    forall i | 0 <= i < |hot|
      ensures hot[i].start < hot[i].end && IsChunk(scan, hot[i])
      ensures exists v :: 0 <= v < |scan| && scan[v].vmaStart <= hot[i].start && hot[i].end <= scan[v].vmaEnd
    {
      LatestFromScan(history, keys[i]);
      var o := Presence(history, keys[i])[|Presence(history, keys[i])| - 1];
      var v :| 0 <= v < |scan| && ChunkIn(scan[v], o);
      LastChunkStarts(scan[v].vmaStart, scan[v].vmaEnd, o.key.chunkIdx);
      assert ChunkAt(scan[v], o.key.chunkIdx, hot[i]);
    }
    forall i, j | 0 <= i < j < |hot|
      ensures hot[i].end <= hot[j].start || hot[j].end <= hot[i].start
    {
      LatestFromScan(history, keys[i]);
      LatestFromScan(history, keys[j]);
      ChunksDisjoint(scan, Presence(history, keys[i])[|Presence(history, keys[i])| - 1],
                     Presence(history, keys[j])[|Presence(history, keys[j])| - 1]);
    }
    CoveredSize(hot);
    MappedSize(scan);
    forall a | a in Covered(hot)
      ensures a in Mapped(scan)
    {
      var i := CoveredBy(hot, a);
      var v :| 0 <= v < |scan| && scan[v].vmaStart <= hot[i].start && hot[i].end <= scan[v].vmaEnd;
      MappedHas(scan, v, a);
    }
    SubsetSize(Covered(hot), Mapped(scan));
  }

  lemma {:induction false} SubsetSize(a: set<nat>, b: set<nat>)
    requires a <= b
    ensures |a| <= |b|
  {
    if a != {} {
      var x :| x in a;
      SubsetSize(a - {x}, b - {x});
    }
  }
}
