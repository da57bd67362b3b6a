/** The metrics read from criu-lazy-pages.log (pkg/agent/metrics.go). A line is given by what its regular
    expressions match; a line without a timestamp counts as time 0. */
module LazyPagesLog {
  import opened Options

  datatype Copy = Copy(pid: string, size: nat)
  datatype Served = Served(pid: string, source: string)
  datatype Line = Line(time: real, start: Option<string>, copy: Option<Copy>, served: Option<Served>)

  datatype Event = Event(stallMs: real, source: string, pages: nat)
  datatype Tagged = Tagged(pid: string, event: Event)

  predicate Starts(line: Line, pid: string) {
    line.start == Some(pid)
  }

  predicate Serves(line: Line, pid: string) {
    line.served.Some? && line.served.value.pid == pid
  }

  function CopiedBy(line: Line, pid: string): nat {
    if line.copy.Some? && line.copy.value.pid == pid then line.copy.value.size else 0
  }

  // ---------------------------------------------------------------- what one process sees

  /** The fault of one process that has not been served yet. */
  datatype Pending = NoFault | Fault(start: real, bytes: nat)

  function Begun(p: Pending, line: Line, pid: string): Pending {
    var started := if Starts(line, pid) then Fault(line.time, 0) else p;
    if started.NoFault? then NoFault else started.(bytes := started.bytes + CopiedBy(line, pid))
  }

  function PendingOf(lines: seq<Line>, pid: string): Pending {
    if lines == [] then NoFault
    else
      var last := lines[|lines| - 1];
      if Serves(last, pid) then NoFault else Begun(PendingOf(lines[..|lines| - 1], pid), last, pid)
  }

  /** The event of a line for one process, if any. */
  function EventOf(p: Pending, line: Line, pid: string): seq<Event> {
    var begun := Begun(p, line, pid);
    if Serves(line, pid) && begun.Fault?
    then [Event((line.time - begun.start) * 1000.0, line.served.value.source, begun.bytes / 4096)]
    else []
  }

  /** The events of one process, from its own lines alone. */
  function EventsOf(lines: seq<Line>, pid: string): seq<Event> {
    if lines == [] then []
    else
      var init, last := lines[..|lines| - 1], lines[|lines| - 1];
      EventsOf(init, pid) + EventOf(PendingOf(init, pid), last, pid)
  }

  /** All events in the order of the log. */
  function AllEvents(lines: seq<Line>): seq<Tagged> {
    if lines == [] then []
    else
      var init, last := lines[..|lines| - 1], lines[|lines| - 1];
      AllEvents(init) +
      if last.served.None? then []
      else Tags(last.served.value.pid, EventOf(PendingOf(init, last.served.value.pid), last, last.served.value.pid))
  }

  function Tags(pid: string, events: seq<Event>): seq<Tagged> {
    seq(|events|, i requires 0 <= i < |events| => Tagged(pid, events[i]))
  }

  function Untagged(events: seq<Tagged>): seq<Event> {
    seq(|events|, i requires 0 <= i < |events| => events[i].event)
  }

  /** The events of one process among all. */
  function Project(events: seq<Tagged>, pid: string): seq<Event> {
    if events == [] then []
    else
      var last := events[|events| - 1];
      Project(events[..|events| - 1], pid) + if last.pid == pid then [last.event] else []
  }

  /** The line without what belongs to other processes. */
  function Mask(line: Line, pid: string): Line {
    Line(line.time,
         if Starts(line, pid) then line.start else None,
         if line.copy.Some? && line.copy.value.pid == pid then line.copy else None,
         if Serves(line, pid) then line.served else None)
  }

  predicate Mentions(line: Line, pid: string) {
    Starts(line, pid) || (line.copy.Some? && line.copy.value.pid == pid) || Serves(line, pid)
  }

  /** The log restricted to one process. */
  function Restrict(lines: seq<Line>, pid: string): seq<Line> {
    if lines == [] then []
    else
      var last := lines[|lines| - 1];
      Restrict(lines[..|lines| - 1], pid) + if Mentions(last, pid) then [Mask(last, pid)] else []
  }

  // ---------------------------------------------------------------- the fold

  /** The maps of the loop hold, for every process, its pending fault. */
  ghost predicate Tracks(lines: seq<Line>, pendingFault: map<string, real>, pendingBytes: map<string, nat>) {
    forall pid :: Holds(PendingOf(lines, pid), pendingFault, pendingBytes, pid)
  }

  ghost predicate Holds(p: Pending, pendingFault: map<string, real>, pendingBytes: map<string, nat>, pid: string) {
    (pid in pendingFault <==> p.Fault?) &&
    (p.Fault? ==> pid in pendingBytes && pendingFault[pid] == p.start && pendingBytes[pid] == p.bytes)
  }

  /** The loop of ParseLazyPagesLog over the fault lines. */
  method ParseEvents(lines: seq<Line>) returns (events: seq<Event>)
    ensures events == Untagged(AllEvents(lines))
  {
    var pendingFault: map<string, real>, pendingBytes: map<string, nat> := map[], map[];
    events := [];
    for i := 0 to |lines|
      invariant Tracks(lines[..i], pendingFault, pendingBytes)
      invariant events == Untagged(AllEvents(lines[..i]))
    {
      ghost var init := lines[..i];
      assert lines[..i + 1][..i] == init;
      var found;
      hide AllEvents, Untagged;
      pendingFault, pendingBytes, found := ParseLine(lines[i], pendingFault, pendingBytes, init);
      TracksNext(init, lines[i], lines[..i + 1], pendingFault, pendingBytes);
      EventsNext(init, lines[i], lines[..i + 1]);
      events := events + found;
    }
    assert lines[..|lines|] == lines;
  }

  lemma TracksNext(init: seq<Line>, line: Line, lines: seq<Line>, fault: map<string, real>, bytes: map<string, nat>)
    requires lines == init + [line]
    requires forall pid ::
               Holds(if Serves(line, pid) then NoFault else Begun(PendingOf(init, pid), line, pid), fault, bytes, pid)
    ensures Tracks(lines, fault, bytes)
  {
    assert lines[..|lines| - 1] == init;
  }

  /** What the line adds to the events. */
  function NewEvents(init: seq<Line>, line: Line): seq<Event> {
    if line.served.None? then [] else EventOf(PendingOf(init, line.served.value.pid), line, line.served.value.pid)
  }

  lemma EventsNext(init: seq<Line>, line: Line, lines: seq<Line>)
    requires lines == init + [line]
    ensures Untagged(AllEvents(lines)) == Untagged(AllEvents(init)) + NewEvents(init, line)
  {
    assert lines[..|lines| - 1] == init;
  }

  /** One iteration: start, then copy, then served. */
  method ParseLine(line: Line, fault: map<string, real>, bytes: map<string, nat>, ghost init: seq<Line>)
    returns (fault': map<string, real>, bytes': map<string, nat>, events: seq<Event>)
    requires Tracks(init, fault, bytes)
    ensures forall pid ::
              Holds(if Serves(line, pid) then NoFault else Begun(PendingOf(init, pid), line, pid), fault', bytes', pid)
    ensures events == NewEvents(init, line)
  {
    hide PendingOf;
    fault', bytes', events := fault, bytes, [];
    if line.start.Some? {
      fault' := fault'[line.start.value := line.time];
      bytes' := bytes'[line.start.value := 0];
    }
    if line.copy.Some? {
      var Copy(pid, size) := line.copy.value;
      bytes' := bytes'[pid := size + if pid in bytes' then bytes'[pid] else 0];
    }
    assert forall pid :: Holds(Begun(PendingOf(init, pid), line, pid), fault', bytes', pid);
    if line.served.Some? {
      var Served(pid, source) := line.served.value;
      if pid in fault' {
        assert Holds(Begun(PendingOf(init, pid), line, pid), fault', bytes', pid);
        events := [Event((line.time - fault'[pid]) * 1000.0, source, bytes'[pid] / 4096)];
        fault' := fault' - {pid};
        bytes' := bytes' - {pid};
      }
    }
  }

  // ---------------------------------------------------------------- independence

  lemma ProjectTagged(events: seq<Tagged>, more: seq<Event>, from: string, pid: string)
    requires |more| <= 1
    ensures Project(events + Tags(from, more), pid) == Project(events, pid) + if from == pid then more else []
  {
    if more == [] {
      assert events + Tags(from, more) == events;
    } else {
      assert (events + Tags(from, more))[..|events|] == events;
    }
  }

  lemma {:induction false} ProjectAll(lines: seq<Line>, pid: string)
    ensures Project(AllEvents(lines), pid) == EventsOf(lines, pid)
  {
    if lines != [] {
      var init, last := lines[..|lines| - 1], lines[|lines| - 1];
      ProjectAll(init, pid);
      hide PendingOf, Begun, Project;
      if last.served.Some? {
        var from := last.served.value.pid;
        ProjectTagged(AllEvents(init), EventOf(PendingOf(init, from), last, from), from, pid);
      } else {
        assert AllEvents(lines) == AllEvents(init) && EventsOf(lines, pid) == EventsOf(init, pid);
      }
    }
  }

  lemma MaskKeeps(p: Pending, line: Line, pid: string)
    ensures Begun(p, Mask(line, pid), pid) == Begun(p, line, pid) && Serves(Mask(line, pid), pid) == Serves(line, pid)
    ensures EventOf(p, Mask(line, pid), pid) == EventOf(p, line, pid)
  {
  }

  lemma Unmentioned(p: Pending, line: Line, pid: string)
    requires !Mentions(line, pid)
    ensures Begun(p, line, pid) == p && !Serves(line, pid) && EventOf(p, line, pid) == []
  {
  }

  lemma Snoc(init: seq<Line>, line: Line, pid: string)
    ensures PendingOf(init + [line], pid) ==
            if Serves(line, pid) then NoFault else Begun(PendingOf(init, pid), line, pid)
    ensures EventsOf(init + [line], pid) == EventsOf(init, pid) + EventOf(PendingOf(init, pid), line, pid)
  {
    assert (init + [line])[..|init|] == init;
  }

  lemma {:induction false} RestrictKeeps(lines: seq<Line>, pid: string)
    ensures PendingOf(Restrict(lines, pid), pid) == PendingOf(lines, pid)
    ensures EventsOf(Restrict(lines, pid), pid) == EventsOf(lines, pid)
  {
    if lines != [] {
      var init, last := lines[..|lines| - 1], lines[|lines| - 1];
      RestrictKeeps(init, pid);
      assert lines == init + [last];
      Snoc(init, last, pid);
      var kept := Restrict(init, pid);
      hide PendingOf, EventsOf, EventOf, Begun, Serves, Mask, Mentions;
      if Mentions(last, pid) {
        assert Restrict(lines, pid) == kept + [Mask(last, pid)];
        Snoc(kept, Mask(last, pid), pid);
        MaskKeeps(PendingOf(init, pid), last, pid);
      } else {
        assert Restrict(lines, pid) == kept;
        Unmentioned(PendingOf(init, pid), last, pid);
      }
    }
  }

  lemma {:induction false} AllOfOne(lines: seq<Line>, pid: string)
    requires forall i :: 0 <= i < |lines| && lines[i].served.Some? ==> lines[i].served.value.pid == pid
    ensures Untagged(AllEvents(lines)) == EventsOf(lines, pid)
  {
    if lines != [] {
      AllOfOne(lines[..|lines| - 1], pid);
    }
  }

  lemma {:induction false} RestrictServes(lines: seq<Line>, pid: string)
    ensures forall i :: 0 <= i < |Restrict(lines, pid)| && Restrict(lines, pid)[i].served.Some? ==>
              Restrict(lines, pid)[i].served.value.pid == pid
  {
    if lines != [] {
      RestrictServes(lines[..|lines| - 1], pid);
    }
  }

  /** The events of a process in an interleaved log are those of the log restricted to it. */
  lemma InterleavingIndependent(lines: seq<Line>, pid: string)
    ensures Project(AllEvents(lines), pid) == Untagged(AllEvents(Restrict(lines, pid)))
  {
    ProjectAll(lines, pid);
    RestrictKeeps(lines, pid);
    RestrictServes(lines, pid);
    AllOfOne(Restrict(lines, pid), pid);
  }

  // ---------------------------------------------------------------- pairing

  /** Line `j` is the latest start before position `n`, and nothing has served it. */
  ghost predicate LatestUnserved(lines: seq<Line>, j: nat, n: nat, pid: string)
    requires n <= |lines|
  {
    j < n && Starts(lines[j], pid) &&
    (forall k :: j < k < n ==> !Starts(lines[k], pid)) && (forall k :: j <= k < n ==> !Serves(lines[k], pid))
  }

  function Copied(lines: seq<Line>, j: nat, n: nat, pid: string): nat
    requires j <= n <= |lines|
  {
    if j == n then 0 else Copied(lines, j, n - 1, pid) + CopiedBy(lines[n - 1], pid)
  }

  /** A process has a pending fault if and only if there is a latest unserved start, and it holds that start's
      time and the bytes copied since. */
  lemma {:induction false} PendingIff(lines: seq<Line>, n: nat, pid: string)
    requires n <= |lines|
    ensures PendingOf(lines[..n], pid).Fault? <==> exists j: nat :: LatestUnserved(lines, j, n, pid)
    ensures forall j: nat :: LatestUnserved(lines, j, n, pid) ==>
              PendingOf(lines[..n], pid) == Fault(lines[j].time, Copied(lines, j, n, pid))
  {
    if n > 0 {
      var last := lines[n - 1];
      PendingIff(lines, n - 1, pid);
      assert lines[..n][..n - 1] == lines[..n - 1];
      if Serves(last, pid) {
      } else if Starts(last, pid) {
        assert LatestUnserved(lines, n - 1, n, pid);
        assert Copied(lines, n - 1, n, pid) == CopiedBy(last, pid);
      } else {
        forall j: nat
          ensures LatestUnserved(lines, j, n, pid) <==> LatestUnserved(lines, j, n - 1, pid)
        {
          if LatestUnserved(lines, j, n, pid) {
            assert j != n - 1;
          }
        }
        if PendingOf(lines[..n - 1], pid).Fault? {
          var j: nat :| LatestUnserved(lines, j, n - 1, pid);
          assert LatestUnserved(lines, j, n, pid);
        }
      }
    }
  }

  /** The start that a "served" line at position `i` answers; it may be on the same line. */
  ghost predicate Answers(lines: seq<Line>, j: nat, i: nat, pid: string)
    requires i < |lines|
  {
    if Starts(lines[i], pid) then j == i else LatestUnserved(lines, j, i, pid)
  }

  /** A "served" line gives an event if and only if it answers a start, and the event carries the time since that
      start and the pages copied since. */
  lemma EventPairs(lines: seq<Line>, i: nat, pid: string)
    requires i < |lines| && Serves(lines[i], pid)
    ensures EventOf(PendingOf(lines[..i], pid), lines[i], pid) != [] <==> exists j: nat :: Answers(lines, j, i, pid)
    ensures forall j: nat :: Answers(lines, j, i, pid) ==>
              j <= i &&
              EventOf(PendingOf(lines[..i], pid), lines[i], pid) ==
              [Event((lines[i].time - lines[j].time) * 1000.0, lines[i].served.value.source,
                     Copied(lines, j, i + 1, pid) / 4096)]
  {
    PendingIff(lines, i, pid);
    if Starts(lines[i], pid) {
      assert Answers(lines, i, i, pid);
      assert Copied(lines, i, i + 1, pid) == CopiedBy(lines[i], pid);
    } else {
      forall j: nat
        ensures Answers(lines, j, i, pid) <==> LatestUnserved(lines, j, i, pid)
      {
      }
    }
  }

  // ---------------------------------------------------------------- the figures

  /** math.Round: halves away from zero. */
  function Round(x: real): int {
    if x >= 0.0 then (x + 0.5).Floor else -((-x + 0.5).Floor)
  }

  /** Rounded to three decimals. */
  function Round3(x: real): real {
    Round(x * 1000.0) as real / 1000.0
  }

  /** `r` is a whole number of thousandths, no further from `x` than half of one, and of two equally near it is the
      one away from zero. */
  ghost predicate NearestThousandth(x: real, r: real) {
    (r * 1000.0).Floor as real == r * 1000.0 &&
    -0.0005 <= r - x <= 0.0005 &&
    (r - x == 0.0005 ==> x >= 0.0) && (r - x == -0.0005 ==> x < 0.0)
  }

  /** Exactly one number is that, and it is the one that Round3 gives. */
  lemma Round3Iff(x: real, r: real)
    ensures NearestThousandth(x, r) <==> r == Round3(x)
  {
    var n := Round(x * 1000.0);
    assert n as real == Round3(x) * 1000.0;
    if NearestThousandth(x, r) {
      var k := (r * 1000.0).Floor;
      assert k as real - 0.5 <= x * 1000.0 <= k as real + 0.5;
      assert k == n;
    }
  }

  lemma RoundMonotone(x: real, y: real)
    requires x <= y
    ensures Round3(x) <= Round3(y)
  {
    assert Round(x * 1000.0) <= Round(y * 1000.0);
  }

  lemma RoundSign(x: real)
    ensures x >= 0.0 ==> Round3(x) >= 0.0
  {
  }

  function Sum(vals: seq<real>): real {
    if vals == [] then 0.0 else Sum(vals[..|vals| - 1]) + vals[|vals| - 1]
  }

  lemma {:induction false} SumBounded(vals: seq<real>, top: real)
    requires forall i :: 0 <= i < |vals| ==> vals[i] <= top
    ensures Sum(vals) <= top * (|vals| as real)
  {
    if vals != [] {
      SumBounded(vals[..|vals| - 1], top);
      assert top * (|vals| as real) == top * ((|vals| - 1) as real) + top;
    }
  }

  method Avg(vals: seq<real>) returns (r: real)
    ensures vals == [] ==> r == 0.0
    ensures vals != [] ==> r == Round3(Sum(vals) / (|vals| as real))
    ensures vals != [] ==> forall top :: (forall i :: 0 <= i < |vals| ==> vals[i] <= top) ==> r <= Round3(top)
  {
    if |vals| == 0 {
      return 0.0;
    }
    var sum := 0.0;
    for i := 0 to |vals|
      invariant sum == Sum(vals[..i])
    {
      assert vals[..i + 1][..i] == vals[..i];
      sum := sum + vals[i];
    }
    assert vals[..|vals|] == vals;
    r := Round3(sum / (|vals| as real));
    forall top | forall i :: 0 <= i < |vals| ==> vals[i] <= top
      ensures r <= Round3(top)
    {
      SumBounded(vals, top);
      Quotient(sum, |vals| as real, top);
      RoundMonotone(sum / (|vals| as real), top);
    }
  }

  lemma Quotient(sum: real, n: real, top: real)
    requires n > 0.0 && sum <= top * n
    ensures sum / n <= top
  {
    assert sum == (sum / n) * n;
  }

  /** The greatest value, not rounded; 0 for no values. */
  ghost predicate IsGreatest(vals: seq<real>, m: real) {
    if vals == [] then m == 0.0 else m in vals && forall i :: 0 <= i < |vals| ==> vals[i] <= m
  }

  method Max(vals: seq<real>) returns (r: real)
    ensures exists m :: IsGreatest(vals, m) && r == Round3(m)
  {
    if |vals| == 0 {
      assert IsGreatest(vals, 0.0) && Round3(0.0) == 0.0;
      return 0.0;
    }
    var m := vals[0];
    for k := 1 to |vals|
      invariant m in vals && forall i :: 0 <= i < k ==> vals[i] <= m
    {
      if vals[k] > m {
        m := vals[k];
      }
    }
    assert IsGreatest(vals, m);
    return Round3(m);
  }

  function Insert(x: real, sorted: seq<real>): seq<real> {
    if sorted == [] || x <= sorted[0] then [x] + sorted else [sorted[0]] + Insert(x, sorted[1..])
  }

  /** sort.Float64s. */
  function Sort(vals: seq<real>): seq<real> {
    if vals == [] then [] else Insert(vals[0], Sort(vals[1..]))
  }

  predicate Ordered(s: seq<real>) {
    forall i, j :: 0 <= i < j < |s| ==> s[i] <= s[j]
  }

  /** How many values are below, or not above, `v`. */
  function Below(s: seq<real>, v: real): nat {
    if s == [] then 0 else (if s[0] < v then 1 else 0) + Below(s[1..], v)
  }

  function UpTo(s: seq<real>, v: real): nat {
    if s == [] then 0 else (if s[0] <= v then 1 else 0) + UpTo(s[1..], v)
  }

  lemma {:induction false} InsertKeeps(x: real, s: seq<real>, v: real)
    requires Ordered(s)
    ensures Ordered(Insert(x, s)) && |Insert(x, s)| == |s| + 1
    ensures forall y :: y in Insert(x, s) <==> y == x || y in s
    ensures Below(Insert(x, s), v) == Below(s, v) + if x < v then 1 else 0
    ensures UpTo(Insert(x, s), v) == UpTo(s, v) + if x <= v then 1 else 0
  {
    if s == [] || x <= s[0] {
      assert ([x] + s)[1..] == s;
    } else {
      InsertKeeps(x, s[1..], v);
      var rest := Insert(x, s[1..]);
      assert ([s[0]] + rest)[1..] == rest;
      assert s == [s[0]] + s[1..];
      forall j | 0 <= j < |rest|
        ensures s[0] <= rest[j]
      {
        assert rest[j] in rest;
      }
    }
  }

  lemma {:induction false} SortKeeps(vals: seq<real>, v: real)
    ensures Ordered(Sort(vals)) && |Sort(vals)| == |vals|
    ensures forall y :: y in Sort(vals) <==> y in vals
    ensures Below(Sort(vals), v) == Below(vals, v) && UpTo(Sort(vals), v) == UpTo(vals, v)
  {
    if vals != [] {
      SortKeeps(vals[1..], v);
      InsertKeeps(vals[0], Sort(vals[1..]), v);
      assert vals == [vals[0]] + vals[1..];
    }
  }

  /** In an ordered list the value at position `k` has at most `k` values below it and more than `k` up to it. */
  lemma {:induction false} RankOf(s: seq<real>, k: nat)
    requires Ordered(s) && k < |s|
    ensures Below(s, s[k]) <= k < UpTo(s, s[k])
  {
    if k == 0 {
      NoneBelow(s, s[0]);
    } else {
      RankOf(s[1..], k - 1);
    }
  }

  lemma {:induction false} NoneBelow(s: seq<real>, v: real)
    requires forall i :: 0 <= i < |s| ==> v <= s[i]
    ensures Below(s, v) == 0
  {
    if s != [] {
      NoneBelow(s[1..], v);
    }
  }

  /** One of the values, with at most that many below it and more up to it. */
  ghost predicate HasRank(vals: seq<real>, v: real, pct: nat) {
    v in vals &&
    var idx := if |vals| * pct / 100 >= |vals| then |vals| - 1 else |vals| * pct / 100;
    Below(vals, v) <= idx < UpTo(vals, v)
  }

  /** percentile: the value whose rank is |vals| * pct / 100, capped at the last one. */
  method Percentile(vals: seq<real>, pct: nat) returns (r: real)
    ensures vals == [] ==> r == 0.0
    ensures vals != [] ==> exists v :: HasRank(vals, v, pct) && r == Round3(v)
  {
    if |vals| == 0 {
      return 0.0;
    }
    var sorted := Sort(vals);
    SortKeeps(vals, 0.0);
    var idx := |sorted| * pct / 100;
    if idx >= |sorted| {
      idx := |sorted| - 1;
    }
    SortKeeps(vals, sorted[idx]);
    RankOf(sorted, idx);
    assert sorted[idx] in sorted;
    assert HasRank(vals, sorted[idx], pct);
    r := Round3(sorted[idx]);
  }

  datatype Metrics = Metrics(totalFaults: nat, s3Faults: nat, cacheFaults: nat, stallAvg: real, stallP50: real,
                             stallMax: real, s3StallAvg: real, s3StallMax: real, cacheStallAvg: real,
                             cacheStallMax: real, pagesPerFaultAvg: real, pagesPerFaultMax: nat)

  /** The stalls of one source, in order. */
  function From(events: seq<Event>, source: string): seq<real> {
    if events == [] then []
    else
      var last := events[|events| - 1];
      From(events[..|events| - 1], source) + if last.source == source then [last.stallMs] else []
  }

  function Stalls(events: seq<Event>): seq<real> {
    seq(|events|, i requires 0 <= i < |events| => events[i].stallMs)
  }

  lemma {:induction false} FromCounts(events: seq<Event>)
    ensures |From(events, "S3")| + |From(events, "CACHE")| <= |events|
  {
    if events != [] {
      FromCounts(events[..|events| - 1]);
      assert "S3"[0] != "CACHE"[0];
    }
  }

  lemma {:induction false} FromStalls(events: seq<Event>, source: string)
    ensures forall x :: x in From(events, source) ==> x in Stalls(events)
  {
    if events != [] {
      var init := events[..|events| - 1];
      FromStalls(init, source);
      assert Stalls(events) == Stalls(init) + [events[|events| - 1].stallMs];
    }
  }

  /** Some event is from the source. */
  ghost predicate HasSource(events: seq<Event>, source: string) {
    exists i :: 0 <= i < |events| && events[i].source == source
  }

  /** Some stall is not negative once it is rounded. */
  ghost predicate SomeNonNegative(events: seq<Event>) {
    exists i :: 0 <= i < |events| && Round3(events[i].stallMs) >= 0.0
  }

  lemma {:induction false} FromSome(events: seq<Event>, source: string)
    ensures From(events, source) != [] <==> HasSource(events, source)
  {
    if events != [] {
      var init, last := events[..|events| - 1], events[|events| - 1];
      FromSome(init, source);
      if HasSource(init, source) {
        var i :| 0 <= i < |init| && init[i].source == source;
        assert events[i].source == source;
      }
      if HasSource(events, source) && last.source != source {
        var i :| 0 <= i < |events| && events[i].source == source;
        assert init[i].source == source;
      }
    }
  }

  lemma AllNonNegative(events: seq<Event>)
    requires events != [] && forall i :: 0 <= i < |events| ==> events[i].stallMs >= 0.0
    ensures SomeNonNegative(events)
  {
    RoundSign(events[0].stallMs);
  }

  lemma TopSign(events: seq<Event>, top: real)
    requires events != [] && IsGreatest(Stalls(events), top)
    ensures Round3(top) >= 0.0 <==> SomeNonNegative(events)
  {
    var k :| 0 <= k < |Stalls(events)| && Stalls(events)[k] == top;
    assert events[k].stallMs == top;
    hide Round3;
    if SomeNonNegative(events) {
      var i :| 0 <= i < |events| && Round3(events[i].stallMs) >= 0.0;
      assert Stalls(events)[i] <= top;
      RoundMonotone(events[i].stallMs, top);
    }
  }

  /** A source's maximum stays below the overall one if and only if the source has an event or some stall is not
      negative. */
  lemma PartMaxIff(events: seq<Event>, source: string, all: real, part: real)
    requires events != [] && IsGreatest(Stalls(events), all) && IsGreatest(From(events, source), part)
    ensures Round3(part) <= Round3(all) <==> HasSource(events, source) || SomeNonNegative(events)
  {
    FromStalls(events, source);
    FromSome(events, source);
    TopSign(events, all);
    assert Round3(0.0) == 0.0;
    hide Round3, Stalls;
    if From(events, source) != [] {
      RoundMonotone(part, all);
    }
  }

  /** Such a log exists: a fault starts at 5 s, and the line that says it was served has no timestamp. */
  lemma NegativeStallHides() returns (lines: seq<Line>)
    ensures var events := Untagged(AllEvents(lines));
            events == [Event(-5000.0, "CACHE", 0)] && !HasSource(events, "S3") && !SomeNonNegative(events)
  {
    var start, served := Line(5.0, Some("7"), None, None), Line(0.0, None, None, Some(Served("7", "CACHE")));
    lines := [start] + [served];
    EventsNext([], start, [start]);
    EventsNext([start], served, lines);
    assert [start][..0] == [];
    assert PendingOf([start], "7") == Fault(5.0, 0);
    assert NewEvents([start], served) == [Event(-5000.0, "CACHE", 0)];
    assert Untagged(AllEvents(lines)) == [Event(-5000.0, "CACHE", 0)];
    assert "CACHE"[0] != "S3"[0];
  }

  function PagesOf(events: seq<Event>): seq<nat> {
    if events == [] then []
    else
      var last := events[|events| - 1];
      PagesOf(events[..|events| - 1]) + if last.pages > 0 then [last.pages] else []
  }

  function Total(pages: seq<nat>): nat {
    if pages == [] then 0 else Total(pages[..|pages| - 1]) + pages[|pages| - 1]
  }

  lemma {:induction false} TotalBounded(pages: seq<nat>, top: nat)
    requires forall i :: 0 <= i < |pages| ==> pages[i] <= top
    ensures Total(pages) as real <= top as real * |pages| as real
  {
    if pages != [] {
      TotalBounded(pages[..|pages| - 1], top);
      assert top as real * |pages| as real == top as real * (|pages| - 1) as real + top as real;
    }
  }

  lemma MeanBelow(pages: seq<nat>, top: nat)
    requires pages != [] && forall i :: 0 <= i < |pages| ==> pages[i] <= top
    ensures Total(pages) as real / |pages| as real <= top as real
  {
    TotalBounded(pages, top);
    Quotient(Total(pages) as real, |pages| as real, top as real);
  }

  /** The loop over the page counts: the mean, not rounded, and the greatest. */
  method PageFigures(pages: seq<nat>) returns (mean: real, most: nat)
    ensures pages == [] ==> mean == 0.0 && most == 0
    ensures pages != [] ==> most in pages || most == 0
    ensures forall i :: 0 <= i < |pages| ==> pages[i] <= most
    ensures pages != [] ==> mean == Total(pages) as real / |pages| as real
    ensures mean <= most as real
  {
    mean, most := 0.0, 0;
    if |pages| == 0 {
      return;
    }
    var sum := 0;
    for k := 0 to |pages|
      invariant sum == Total(pages[..k])
      invariant (most in pages || most == 0) && forall i :: 0 <= i < k ==> pages[i] <= most
    {
      assert pages[..k + 1][..k] == pages[..k];
      sum := sum + pages[k];
      if pages[k] > most {
        most := pages[k];
      }
    }
    assert pages[..|pages|] == pages;
    MeanBelow(pages, most);
    mean := sum as real / |pages| as real;
  }

  /** The mean of the values, rounded; 0 for none. */
  ghost predicate IsAverage(vals: seq<real>, r: real) {
    if vals == [] then r == 0.0 else NearestThousandth(Sum(vals) / |vals| as real, r)
  }

  /** The value in the middle, rounded; 0 for none. */
  ghost predicate IsMedian(vals: seq<real>, r: real) {
    if vals == [] then r == 0.0 else exists v :: HasRank(vals, v, 50) && NearestThousandth(v, r)
  }

  /** The greatest value, rounded; 0 for none. */
  ghost predicate IsMost(vals: seq<real>, r: real) {
    exists top :: IsGreatest(vals, top) && NearestThousandth(top, r)
  }

  /** The figures of ParseLazyPagesLog; `words` is the number of "PAGE FAULT at" in the text. */
  method Summarize(events: seq<Event>, words: nat) returns (m: Metrics)
    ensures m.totalFaults == if events == [] then words else |events|
    ensures m.s3Faults == |From(events, "S3")| && m.cacheFaults == |From(events, "CACHE")|
    ensures m.s3Faults + m.cacheFaults <= m.totalFaults
    ensures IsAverage(Stalls(events), m.stallAvg) && IsMedian(Stalls(events), m.stallP50) &&
            IsMost(Stalls(events), m.stallMax)
    ensures IsAverage(From(events, "S3"), m.s3StallAvg) && IsMost(From(events, "S3"), m.s3StallMax)
    ensures IsAverage(From(events, "CACHE"), m.cacheStallAvg) && IsMost(From(events, "CACHE"), m.cacheStallMax)
    ensures m.stallP50 <= m.stallMax && m.stallAvg <= m.stallMax
    ensures m.s3StallAvg <= m.s3StallMax && m.cacheStallAvg <= m.cacheStallMax
    ensures m.s3StallMax <= m.stallMax <==> events == [] || HasSource(events, "S3") || SomeNonNegative(events)
    ensures m.cacheStallMax <= m.stallMax <==> events == [] || HasSource(events, "CACHE") || SomeNonNegative(events)
    ensures (forall i :: 0 <= i < |events| ==> events[i].stallMs >= 0.0) ==>
              m.stallMax >= 0.0 && m.s3StallMax <= m.stallMax && m.cacheStallMax <= m.stallMax
    ensures forall p :: p in PagesOf(events) ==> p <= m.pagesPerFaultMax
    ensures m.pagesPerFaultMax in PagesOf(events) || m.pagesPerFaultMax == 0
    ensures m.pagesPerFaultAvg <= m.pagesPerFaultMax as real
    ensures var pages := PagesOf(events);
            m.pagesPerFaultAvg == if pages == [] then 0.0 else Total(pages) as real / |pages| as real
  {
    FromCounts(events);
    if |events| == 0 {
      NoFigures();
      return Metrics(words, 0, 0, 0.0, 0.0, 0.0, 0.0, 0.0, 0.0, 0.0, 0.0, 0);
    }
    var all, s3, cache, pages := Collect(events);
    hide From, Stalls, Round3, PagesOf, SomeNonNegative, HasSource;
    var average, median, most := Figures(all);
    ghost var top :| IsGreatest(all, top) && most == Round3(top);
    var s3Average, _, s3Most := Figures(s3);
    ghost var s3Top :| IsGreatest(s3, s3Top) && s3Most == Round3(s3Top);
    var cacheAverage, _, cacheMost := Figures(cache);
    ghost var cacheTop :| IsGreatest(cache, cacheTop) && cacheMost == Round3(cacheTop);
    PartMaxIff(events, "S3", top, s3Top);
    PartMaxIff(events, "CACHE", top, cacheTop);
    if forall i :: 0 <= i < |events| ==> events[i].stallMs >= 0.0 {
      AllNonNegative(events);
      TopSign(events, top);
    }
    var pagesMean, pagesMost := PageFigures(pages);
    m := Metrics(|events|, |s3|, |cache|, average, median, most, s3Average, s3Most, cacheAverage, cacheMost, pagesMean,
                 pagesMost);
  }

  /** Mean, median and maximum of one list of stalls. */
  method Figures(vals: seq<real>) returns (average: real, median: real, most: real)
    ensures IsAverage(vals, average) && IsMedian(vals, median) && IsMost(vals, most)
    ensures exists top :: IsGreatest(vals, top) && most == Round3(top)
    ensures average <= most && median <= most
  {
    hide Round3, NearestThousandth, HasRank;
    average := Avg(vals);
    median := Percentile(vals, 50);
    most := Max(vals);
    ghost var top :| IsGreatest(vals, top) && most == Round3(top);
    Round3Iff(top, most);
    if vals != [] {
      Round3Iff(Sum(vals) / |vals| as real, average);
      ghost var exact :| HasRank(vals, exact, 50) && median == Round3(exact);
      Round3Iff(exact, median);
      MedianBelow(vals, exact, top);
    } else {
      NoFigures();
    }
  }

  lemma MedianBelow(vals: seq<real>, exact: real, top: real)
    requires vals != [] && HasRank(vals, exact, 50) && IsGreatest(vals, top)
    ensures Round3(exact) <= Round3(top)
  {
    RoundMonotone(exact, top);
  }

  lemma NoFigures()
    ensures IsAverage([], 0.0) && IsMedian([], 0.0) && IsMost([], 0.0) && Round3(0.0) == 0.0
  {
    assert IsGreatest([], 0.0) && NearestThousandth(0.0, 0.0);
  }

  /** The loop that sorts the stalls by source. */
  method Collect(events: seq<Event>) returns (all: seq<real>, s3: seq<real>, cache: seq<real>, pages: seq<nat>)
    ensures all == Stalls(events) && s3 == From(events, "S3") && cache == From(events, "CACHE")
    ensures pages == PagesOf(events)
  {
    all, s3, cache, pages := [], [], [], [];
    for i := 0 to |events|
      invariant all == Stalls(events[..i]) && s3 == From(events[..i], "S3") && cache == From(events[..i], "CACHE")
      invariant pages == PagesOf(events[..i])
    {
      assert events[..i + 1][..i] == events[..i];
      all := all + [events[i].stallMs];
      if events[i].pages > 0 {
        pages := pages + [events[i].pages];
      }
      if events[i].source == "S3" {
        s3 := s3 + [events[i].stallMs];
        assert events[i].source[0] != "CACHE"[0];
      } else if events[i].source == "CACHE" {
        cache := cache + [events[i].stallMs];
      }
    }
    assert events[..|events|] == events;
  }
}
