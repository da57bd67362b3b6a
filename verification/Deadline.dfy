/** The dirty-volume invariant and the feasibility score (pkg/agent/deadline_scheduler.go), over
    reals in place of float64. */
module Deadline {
  import Heat

  datatype Config = Config(
    deadlineSeconds: int,
    bandwidthMBps: real,
    scanIntervalMs: int,
    tFreezeMs: int,
    tMarginMs: int,
    dryRun: bool)

  datatype InvariantState = InvariantState(tRemainMs: real, deadlineMs: real, dCurrentBytes: int, bUpload: real,
                                           violated: bool)

  datatype FeasibilityScore = FeasibilityScore(fop: real, alpha: real, dMinBytes: int, dHotBytes: int,
                                               dColdSSBytes: int, warning: bool)

  /** The fallback is an integer constant expression in the source: 100 * 1024 * 1024 / 1000. */
  const FALLBACK_BANDWIDTH: real := 104857.0

  /** bytes per millisecond */
  function Upload(cfg: Config): (b: real)
    ensures b > 0.0
  {
    var b := cfg.bandwidthMBps * 1024.0 * 1024.0 / 1000.0;
    if b <= 0.0 then FALLBACK_BANDWIDTH else b
  }

  function Available(cfg: Config): real {
    cfg.deadlineSeconds as real * 1000.0 - cfg.tFreezeMs as real - cfg.tMarginMs as real
  }

  function EvaluateInvariant(cfg: Config, dirtyBytes: int): InvariantState {
    var deadline := cfg.deadlineSeconds as real * 1000.0;
    var b := Upload(cfg);
    var t := cfg.tFreezeMs as real + dirtyBytes as real / b + cfg.tMarginMs as real;
    InvariantState(t, deadline, dirtyBytes, b, t >= deadline)
  }

  lemma QuotientLess(x: real, y: real, b: real)
    requires b > 0.0
    ensures x / b < y <==> x < y * b
  {
    var q := x / b;
    assert q * b == x;
    if q < y {
      MulLess(q, y, b);
    } else {
      MulLessEq(y, q, b);
    }
  }

  lemma MulLess(x: real, y: real, b: real)
    requires b > 0.0 && x < y
    ensures x * b < y * b
  {
    assert (y - x) * b > 0.0;
  }

  lemma MulLessEq(x: real, y: real, b: real)
    requires b >= 0.0 && x <= y
    ensures x * b <= y * b
  {
    assert (y - x) * b >= 0.0;
  }

  /** The invariant holds exactly while the dirty bytes can be uploaded in the available time. */
  lemma ViolatedIff(cfg: Config, dirtyBytes: int)
    ensures EvaluateInvariant(cfg, dirtyBytes).violated <==> dirtyBytes as real >= Available(cfg) * Upload(cfg)
  {
    QuotientLess(dirtyBytes as real, Available(cfg), Upload(cfg));
  }

  /** The same over the configuration: the time is the deadline less freeze and margin, and the upload runs at the
      configured MiB per second or, without one, at the fallback. */
  lemma DeadlineMissedIff(cfg: Config, dirtyBytes: int)
    ensures EvaluateInvariant(cfg, dirtyBytes).violated <==>
            dirtyBytes as real >=
            ((cfg.deadlineSeconds * 1000 - cfg.tFreezeMs - cfg.tMarginMs) as real) *
            (if cfg.bandwidthMBps > 0.0 then cfg.bandwidthMBps * 1048576.0 / 1000.0 else 104857.0)
  {
    assert Available(cfg) == (cfg.deadlineSeconds * 1000 - cfg.tFreezeMs - cfg.tMarginMs) as real;
    ViolatedIff(cfg, dirtyBytes);
  }

  /** With no time available even a clean process violates the invariant, and only then. */
  lemma NoTimeIff(cfg: Config)
    ensures Available(cfg) <= 0.0 <==> EvaluateInvariant(cfg, 0).violated
  {
  }

  // ---------------------------------------------------------------- the closed loop

  /** One tick of the scheduler: `added` bytes were counted since the last one; if the invariant
      is violated a pre-dump runs, and when it and the profiler restart succeed the count is zero. */
  function Tick(cfg: Config, dirty: nat, added: nat): nat {
    var d := dirty + added;
    if EvaluateInvariant(cfg, d).violated && !cfg.dryRun then 0 else d
  }

  function Loop(cfg: Config, added: seq<nat>): nat {
    if added == [] then 0 else Tick(cfg, Loop(cfg, added[..|added| - 1]), added[|added| - 1])
  }

  /** Over any run of ticks the dirty volume stays under what the deadline allows after each
      tick, and over it by less than one tick's worth before it. */
  lemma {:induction false} LoopStaysBelow(cfg: Config, added: seq<nat>, w: nat)
    requires Available(cfg) > 0.0 && !cfg.dryRun && forall i :: 0 <= i < |added| ==> added[i] <= w
    ensures Loop(cfg, added) as real < Available(cfg) * Upload(cfg)
    ensures added != [] ==>
              (Loop(cfg, added[..|added| - 1]) + added[|added| - 1]) as real < Available(cfg) * Upload(cfg) + w as real
  {
    MulLess(0.0, Available(cfg), Upload(cfg));
    if added != [] {
      LoopStaysBelow(cfg, added[..|added| - 1], w);
      ViolatedIff(cfg, Loop(cfg, added[..|added| - 1]) + added[|added| - 1]);
    }
  }

  // ---------------------------------------------------------------- feasibility

  /** int64(math.Ceil(x)) */
  function Ceil(x: real): int {
    -((-x).Floor)
  }

  function Alpha(rate: real, b: real): real
    requires b > 0.0
  {
    rate / b
  }

  /** R * I * alpha / (1 - alpha) */
  function ColdSteadyState(rate: real, interval: real, alpha: real): real
    requires alpha != 1.0
  {
    rate * interval * alpha / (1.0 - alpha)
  }

  /** The score, given the dirty rate in bytes per second and the total size of the hot regions. */
  function Feasibility(cfg: Config, ratePerSec: real, hotBytes: int): FeasibilityScore {
    var b := cfg.bandwidthMBps * 1024.0 * 1024.0 / 1000.0;
    if b <= 0.0 then FeasibilityScore(999.0, 0.0, 0, 0, 0, false)
    else if Available(cfg) <= 0.0 then FeasibilityScore(0.0, 0.0, 0, 0, 0, true)
    else
      var rate := ratePerSec / 1000.0;
      var alpha := Alpha(rate, b);
      if alpha >= 1.0 then FeasibilityScore(0.0, alpha, 0, hotBytes, 0, true)
      else
        var ss := ColdSteadyState(rate, cfg.scanIntervalMs as real, alpha);
        var cold := if ss < 0.0 then 0.0 else ss;
        var dMin := hotBytes + Ceil(cold);
        var fop := if dMin > 0 then Available(cfg) / (dMin as real / b) else 999.0;
        FeasibilityScore(fop, alpha, dMin, hotBytes, Ceil(cold), fop < 1.0)
  }

  /** evaluateFeasibility with its summing loop. */
  method EvaluateFeasibility(cfg: Config, ratePerSec: real, hot: seq<Heat.HotRegion>) returns (s: FeasibilityScore)
    ensures s == Feasibility(cfg, ratePerSec, Heat.Bytes(hot))
  {
    hide Available, Alpha, ColdSteadyState, Ceil;
    var b := cfg.bandwidthMBps * 1024.0 * 1024.0 / 1000.0;
    if b <= 0.0 {
      return FeasibilityScore(999.0, 0.0, 0, 0, 0, false);
    }
    var available := Available(cfg);
    if available <= 0.0 {
      return FeasibilityScore(0.0, 0.0, 0, 0, 0, true);
    }
    var dHot := 0;
    for i := 0 to |hot|
      invariant dHot == Heat.Bytes(hot[..i])
    {
      assert hot[..i + 1][..i] == hot[..i];
      dHot := dHot + (hot[i].end - hot[i].start);
    }
    assert hot[..|hot|] == hot;
    var rate := ratePerSec / 1000.0;
    var alpha := Alpha(rate, b);
    if alpha >= 1.0 {
      return FeasibilityScore(0.0, alpha, 0, dHot, 0, true);
    }
    var cold := ColdSteadyState(rate, cfg.scanIntervalMs as real, alpha);
    if cold < 0.0 {
      cold := 0.0;
    }
    var dMin := dHot + Ceil(cold);
    var fop := 999.0;
    if dMin > 0 {
      var required := dMin as real / b;
      fop := available / required;
    }
    return FeasibilityScore(fop, alpha, dMin, dHot, Ceil(cold), fop < 1.0);
  }

  /** One pre-dump cycle takes `x` left-over bytes, `added` new ones, and leaves `x` again. */
  ghost predicate Reproduces(x: real, alpha: real, added: real) {
    x == alpha * (x + added)
  }

  /** `n` is the least whole number that is not below `x`, nor below zero. */
  ghost predicate CeilOf(n: int, x: real) {
    n >= 0 && n as real >= x && (n == 0 || (n - 1) as real < x)
  }

  /** `n` is the amount that a cycle with `added` new bytes reproduces, in whole bytes. */
  ghost predicate SteadyState(n: int, alpha: real, added: real) {
    exists x :: Reproduces(x, alpha, added) && CeilOf(n, x)
  }

  /** What the score says of the configuration and the measurements: no bandwidth counts as no limit, no time or a
      dirty rate that the network cannot keep up with as hopeless; otherwise it is the time there is by the time
      that the hot bytes and the cold residual of the steady state take. */
  lemma FeasibilityIs(cfg: Config, ratePerSec: real, hotBytes: int)
    ensures var s := Feasibility(cfg, ratePerSec, hotBytes);
            var time := cfg.deadlineSeconds * 1000 - cfg.tFreezeMs - cfg.tMarginMs;
            var perSec := cfg.bandwidthMBps * 1048576.0;
            if perSec <= 0.0 then s == FeasibilityScore(999.0, 0.0, 0, 0, 0, false)
            else if time <= 0 then s == FeasibilityScore(0.0, 0.0, 0, 0, 0, true)
            else
              s.alpha * perSec == ratePerSec && s.dHotBytes == hotBytes &&
              if ratePerSec >= perSec then s.fop == 0.0 && s.warning && s.dMinBytes == 0 && s.dColdSSBytes == 0
              else
                s.dMinBytes == hotBytes + s.dColdSSBytes &&
                SteadyState(s.dColdSSBytes, s.alpha, ratePerSec / 1000.0 * cfg.scanIntervalMs as real) &&
                (s.dMinBytes > 0 ==> s.fop * s.dMinBytes as real == time as real * (perSec / 1000.0)) &&
                (s.dMinBytes <= 0 ==> s.fop == 999.0) && (s.warning <==> s.fop < 1.0)
  {
    hide ColdSteadyState, SteadyState, Ceil;
    var s := Feasibility(cfg, ratePerSec, hotBytes);
    var time := cfg.deadlineSeconds * 1000 - cfg.tFreezeMs - cfg.tMarginMs;
    var b := cfg.bandwidthMBps * 1024.0 * 1024.0 / 1000.0;
    assert Available(cfg) == time as real && b * 1000.0 == cfg.bandwidthMBps * 1048576.0;
    if b > 0.0 && time > 0 {
      var rate := ratePerSec / 1000.0;
      assert s.alpha == rate / b && s.alpha * b == rate;
      QuotientLess(rate, 1.0, b);
      assert s.alpha * (b * 1000.0) == rate * 1000.0;
      if s.alpha < 1.0 {
        var ss := ColdSteadyState(rate, cfg.scanIntervalMs as real, s.alpha);
        var cold := if ss < 0.0 then 0.0 else ss;
        assert s.dColdSSBytes == Ceil(cold);
        ColdIs(rate, cfg.scanIntervalMs as real, s.alpha, cold, ratePerSec / 1000.0 * cfg.scanIntervalMs as real);
        if s.dMinBytes > 0 {
          ScoreTimes(time as real, s.dMinBytes as real, b);
        }
      }
    }
  }

  lemma ColdIs(rate: real, interval: real, alpha: real, cold: real, added: real)
    requires alpha < 1.0 && added == rate * interval
    requires var ss := ColdSteadyState(rate, interval, alpha); cold == if ss < 0.0 then 0.0 else ss
    ensures SteadyState(Ceil(cold), alpha, added)
  {
    var x := ColdSteadyState(rate, interval, alpha);
    ColdFixedPointIff(rate, interval, alpha, x);
    hide ColdSteadyState;
    assert Reproduces(x, alpha, added) && CeilOf(Ceil(cold), x);
  }

  lemma ScoreTimes(time: real, bytes: real, b: real)
    requires bytes > 0.0 && b > 0.0
    ensures bytes / b > 0.0 && time / (bytes / b) * bytes == time * b
  {
    var q := bytes / b;
    assert q * b == bytes;
    if q <= 0.0 {
      MulLessEq(q, 0.0, b);
    }
    var f := time / q;
    assert f * q == time;
    assert f * (q * b) == (f * q) * b;
  }

  lemma ZeroProduct(x: real, k: real)
    requires k != 0.0 && x * k == 0.0
    ensures x == 0.0
  {
    assert x == x * k / k;
  }

  /** The steady-state residual is the one amount that a pre-dump cycle reproduces. */
  lemma ColdFixedPointIff(rate: real, interval: real, alpha: real, x: real)
    requires alpha != 1.0
    ensures x == alpha * (x + rate * interval) <==> x == ColdSteadyState(rate, interval, alpha)
  {
    var c, k, y := rate * interval * alpha, 1.0 - alpha, ColdSteadyState(rate, interval, alpha);
    assert y * k == c;
    assert alpha * (x + rate * interval) == alpha * x + c;
    assert x * k == x - alpha * x;
    if x * k == c {
      assert (x - y) * k == 0.0;
      ZeroProduct(x - y, k);
    }
  }

  /** What is left dirty after `n` cycles that start clean, each dirtying `ri` bytes. */
  function Residual(ri: real, alpha: real, n: nat): real {
    if n == 0 then 0.0 else alpha * (Residual(ri, alpha, n - 1) + ri)
  }

  lemma CycleBelow(x: real, y: real, alpha: real)
    requires 0.0 <= x <= y && 0.0 <= alpha
    ensures 0.0 <= alpha * x <= alpha * y
  {
    MulLessEq(0.0, x, alpha);
    MulLessEq(x, y, alpha);
  }

  lemma {:induction false} ResidualBelow(ri: real, alpha: real, limit: real, n: nat)
    requires 0.0 <= alpha && ri >= 0.0 && limit >= 0.0 && limit == alpha * (limit + ri)
    ensures 0.0 <= Residual(ri, alpha, n) <= limit
    ensures Residual(ri, alpha, n) <= Residual(ri, alpha, n + 1)
  {
    if n == 0 {
      CycleBelow(0.0, 0.0 + ri, alpha);
      assert Residual(ri, alpha, 1) == alpha * (Residual(ri, alpha, 0) + ri);
    } else {
      ResidualBelow(ri, alpha, limit, n - 1);
      var r, s := Residual(ri, alpha, n - 1), Residual(ri, alpha, n);
      assert s == alpha * (r + ri) && Residual(ri, alpha, n + 1) == alpha * (s + ri);
      hide Residual;
      CycleBelow(r + ri, limit + ri, alpha);
      CycleBelow(r + ri, s + ri, alpha);
    }
  }

  /** Every finite number of cycles leaves at most the steady-state residual, each at least as
      much as the one before. */
  lemma ResidualBounded(rate: real, interval: real, alpha: real, n: nat)
    requires 0.0 <= alpha < 1.0 && rate * interval >= 0.0
    ensures 0.0 <= Residual(rate * interval, alpha, n) <= ColdSteadyState(rate, interval, alpha)
    ensures Residual(rate * interval, alpha, n) <= Residual(rate * interval, alpha, n + 1)
  {
    var ss, ri, k := ColdSteadyState(rate, interval, alpha), rate * interval, 1.0 - alpha;
    ColdFixedPointIff(rate, interval, alpha, ss);
    MulLessEq(0.0, ri, alpha);
    assert ss * k == ri * alpha;
    if ss < 0.0 {
      MulLess(ss, 0.0, k);
    }
    ResidualBelow(ri, alpha, ss, n);
  }

  /** The score agrees with the invariant: at the steady-state minimum the invariant is violated
      exactly when the score is at most one. (A score of exactly one draws no warning.) */
  lemma FeasibilityAgrees(cfg: Config, ratePerSec: real, hotBytes: int)
    requires cfg.bandwidthMBps > 0.0 && Available(cfg) > 0.0
    ensures var s := Feasibility(cfg, ratePerSec, hotBytes);
            s.alpha < 1.0 && s.dMinBytes > 0 ==>
              (EvaluateInvariant(cfg, s.dMinBytes).violated <==> s.fop <= 1.0) && (s.warning <==> s.fop < 1.0)
  {
    var s := Feasibility(cfg, ratePerSec, hotBytes);
    if s.alpha < 1.0 && s.dMinBytes > 0 {
      ScoreAgrees(cfg, s);
    }
  }

  lemma ScoreAgrees(cfg: Config, s: FeasibilityScore)
    requires Available(cfg) > 0.0 && s.dMinBytes > 0 && s.fop == Available(cfg) / (s.dMinBytes as real / Upload(cfg))
    ensures EvaluateInvariant(cfg, s.dMinBytes).violated <==> s.fop <= 1.0
  {
    var b := Upload(cfg);
    var required := s.dMinBytes as real / b;
    ViolatedIff(cfg, s.dMinBytes);
    QuotientLess(s.dMinBytes as real, Available(cfg), b);
    assert required * b == s.dMinBytes as real;
    if required <= 0.0 {
      MulLessEq(required, 0.0, b);
    }
    QuotientLess(Available(cfg), 1.0, required);
    assert s.fop == Available(cfg) / required;
    assert s.fop == 1.0 <==> Available(cfg) == required by {
      assert s.fop * required == Available(cfg);
      if Available(cfg) == required {
        assert (s.fop - 1.0) * required == 0.0;
      }
    }
  }

  /** A score of exactly one draws no warning although the invariant is violated. It comes up whenever the hot
      regions alone take the whole available time and nothing else is written. */
  lemma ScoreOfOneIsSilent(cfg: Config, hotBytes: int)
    requires cfg.bandwidthMBps > 0.0 && Available(cfg) > 0.0 && hotBytes as real == Available(cfg) * Upload(cfg)
    ensures var s := Feasibility(cfg, 0.0, hotBytes);
            s.fop == 1.0 && !s.warning && EvaluateInvariant(cfg, s.dMinBytes).violated
  {
    var b, available := Upload(cfg), Available(cfg);
    MulLess(0.0, available, b);
    assert b == cfg.bandwidthMBps * 1024.0 * 1024.0 / 1000.0;
    assert Alpha(0.0, b) == 0.0 && Ceil(0.0) == 0;
    assert ColdSteadyState(0.0, cfg.scanIntervalMs as real, 0.0) == 0.0 by {
      assert 0.0 * (cfg.scanIntervalMs as real) == 0.0;
    }
    ViolatedIff(cfg, hotBytes);
    QuotientIs(available, b);
    hide Available, Upload, Alpha, Ceil, ColdSteadyState, EvaluateInvariant;
  }

  lemma QuotientIs(x: real, b: real)
    requires x > 0.0 && b > 0.0
    ensures x * b / b == x && x / x == 1.0
  {
  }

  /** For example: 120 s deadline, 50 ms freeze, 5 s margin, 1000 MB/s and 114950 MB of hot regions. */
  lemma SilentExample() returns (cfg: Config, hotBytes: int)
    ensures cfg.bandwidthMBps > 0.0 && Available(cfg) > 0.0 && hotBytes as real == Available(cfg) * Upload(cfg)
  {
    cfg, hotBytes := Config(120, 1000.0, 1000, 50, 5000, false), 114950 * 1048576;
    assert Available(cfg) == 114950.0 && Upload(cfg) == 1048576.0;
  }
}
