/** Exact laws of the window's growth and of the latency estimate. */
module FlowEstimates {
  import opened FlowControl
  import opened FlowDriver
  import opened FlowSafety

  // ---- Growth of the window -------------------------------------------------------------

  /** No `!` arrives, and no slot expires that was still owed a response. */
  predicate Clean(cfg: Config, s: System, actions: seq<Action>)
    requires cfg.rtoMin <= cfg.rtoMax
    decreases |actions|
  {
    actions == [] ||
    (CleanStep(s, actions[0]) && Clean(cfg, Step(cfg, s, actions[0]), actions[1..]))
  }

  predicate CleanStep(s: System, a: Action) {
    match a
    case Error(_) => false
    case Turn(now, _) => Timeouts(Dead(s.st.inFlight, now)) == 0
    case _ => true
  }

  function Grown(cfg: Config, window: nat, acks: nat): nat
    requires cfg.growAcks > 0
  {
    if window + acks / cfg.growAcks < cfg.windowMax then window + acks / cfg.growAcks else cfg.windowMax
  }

  /** After `k` more releasing acks: the window, and the acks of its clean run left over. */
  predicate GrownBy(cfg: Config, before: State, after: State, k: int)
    requires cfg.growAcks > 0
  {
    && k >= 0
    && after.window == Grown(cfg, before.window, before.cleanAcks + k)
    && after.cleanAcks == before.cleanAcks + k - (after.window - before.window) * cfg.growAcks
  }

  lemma DivideOut(n: int, m: int, g: int)
    requires g > 0
    ensures (n - m * g) / g == n / g - m
  {
    var q := n / g;
    assert n - m * g == (q - m) * g + n % g;
    QuotientIs(n - m * g, q - m, n % g, g);
  }

  lemma QuotientIs(n: int, q: int, r: int, g: int)
    requires g > 0 && n == q * g + r && 0 <= r < g
    ensures n / g == q
  {
    var d := n / g - q;
    assert d * g + n % g == r;
    MultipleIsFar(d, g);
  }

  lemma MultipleIsFar(d: int, g: int)
    requires g > 0
    ensures d > 0 ==> d * g >= g
    ensures d < 0 ==> d * g <= -g
  {}

  lemma GrowthComposes(cfg: Config, a: State, b: State, c: State, k: int, l: int)
    requires cfg.growAcks > 0 && GrownBy(cfg, a, b, k) && GrownBy(cfg, b, c, l)
    ensures GrownBy(cfg, a, c, k + l)
  {
    var n, m, g := a.cleanAcks + k + l, b.window - a.window, cfg.growAcks;
    DivideOut(n, m, g);
    assert b.cleanAcks + l == n - m * g;
    assert (c.window - a.window) * g == (c.window - b.window) * g + m * g;
  }

  lemma SameIsGrownByNone(cfg: Config, before: State, after: State)
    requires Sane(cfg) && WindowOk(cfg, before)
    requires after.window == before.window && after.cleanAcks == before.cleanAcks
    ensures GrownBy(cfg, before, after, 0)
  {
    if before.cleanAcks < cfg.growAcks {
      QuotientIs(before.cleanAcks, 0, before.cleanAcks, cfg.growAcks);
    }
  }

  lemma AckGrowsByOne(cfg: Config, s: State, sig: AckSignal, at: Instant)
    requires Sane(cfg) && WindowOk(cfg, s)
    ensures GrownBy(cfg, s, AfterAck(cfg, s, sig, at), if FirstMatch(s.inFlight, sig).Some? then 1 else 0)
  {
    var t := AfterAck(cfg, s, sig, at);
    if FirstMatch(s.inFlight, sig).None? {
      SameIsGrownByNone(cfg, s, t);
    } else {
      var n := s.cleanAcks + 1;
      if n == cfg.growAcks {
        QuotientIs(n, 1, 0, cfg.growAcks);
      } else if n < cfg.growAcks {
        QuotientIs(n, 0, n, cfg.growAcks);
      }
    }
  }

  lemma CleanStepGrows(cfg: Config, s: System, a: Action)
    requires Sane(cfg) && WindowOk(cfg, s.st) && CleanStep(s, a)
    ensures GrownBy(cfg, s.st, Step(cfg, s, a).st, |Step(cfg, s, a).past.acked| - |s.past.acked|)
    ensures WindowOk(cfg, Step(cfg, s, a).st)
  {
    if a.Ack? {
      AckGrowsByOne(cfg, s.st, a.sig, a.at);
      AckKeepsWindow(cfg, s.st, a.sig, a.at);
    } else {
      SameIsGrownByNone(cfg, s.st, Step(cfg, s, a).st);
    }
  }

  /** While nothing times out and no `!` arrives, `k` releasing acks from window `w` and clean run `c` give
      window min(windowMax, w + (c + k) / growAcks) exactly, in whatever order they come. */
  lemma {:induction false} AimdLaw(cfg: Config, s: System, actions: seq<Action>)
    requires Sane(cfg) && WindowOk(cfg, s.st) && Clean(cfg, s, actions)
    ensures GrownBy(cfg, s.st, Run(cfg, s, actions).st, |Run(cfg, s, actions).past.acked| - |s.past.acked|)
    decreases |actions|
  {
    if actions == [] {
      SameIsGrownByNone(cfg, s.st, s.st);
    } else {
      var t := Step(cfg, s, actions[0]);
      CleanStepGrows(cfg, s, actions[0]);
      AimdLaw(cfg, t, actions[1..]);
      var end := Run(cfg, t, actions[1..]);
      var k, l := |t.past.acked| - |s.past.acked|, |end.past.acked| - |t.past.acked|;
      GrowthComposes(cfg, s.st, t.st, end.st, k, l);
      assert GrownBy(cfg, s.st, end.st, k + l);
    }
  }

  // ---- Collapse of the window -----------------------------------------------------------

  lemma {:induction false} TimeoutsConcat(a: seq<Slot>, b: seq<Slot>)
    ensures Timeouts(a + b) == Timeouts(a) + Timeouts(b)
  {
    if a == [] {
      assert a + b == b;
    } else {
      assert (a + b)[1..] == a[1..] + b;
      TimeoutsConcat(a[1..], b);
    }
  }

  /** No response releases a slot, and no `!` arrives. */
  predicate Unanswered(cfg: Config, s: System, actions: seq<Action>)
    requires cfg.rtoMin <= cfg.rtoMax
    decreases |actions|
  {
    actions == [] ||
    (UnansweredStep(s, actions[0]) && Unanswered(cfg, Step(cfg, s, actions[0]), actions[1..]))
  }

  predicate UnansweredStep(s: System, a: Action) {
    match a
    case Error(_) => false
    case Ack(sig, _) => FirstMatch(s.st.inFlight, sig).None?
    case _ => true
  }

  /** After `k` response timeouts in a row. */
  predicate TimedOutBy(cfg: Config, before: State, after: State, k: nat) {
    && after.consecutiveTimeouts == before.consecutiveTimeouts + k
    && after.window == (if k > 0 && before.consecutiveTimeouts + k >= cfg.collapseTimeouts then cfg.windowMin
                        else before.window)
    && after.cleanAcks == if k > 0 then 0 else before.cleanAcks
  }

  lemma UnansweredStepCounts(cfg: Config, s: System, a: Action)
    requires Sane(cfg) && WindowOk(cfg, s.st) && UnansweredStep(s, a)
    ensures var t := Step(cfg, s, a);
            && s.past.expired <= t.past.expired && WindowOk(cfg, t.st)
            && TimedOutBy(cfg, s.st, t.st, Timeouts(t.past.expired[|s.past.expired|..]))
  {
    var t := Step(cfg, s, a);
    if a.Turn? {
      assert t.past.expired[|s.past.expired|..] == Dead(s.st.inFlight, a.now);
    } else {
      assert t.past.expired[|s.past.expired|..] == [];
    }
  }

  /** While no response releases a slot and no `!` arrives, every slot that expires with a response owed counts, and
      the window collapses to its minimum exactly when the count reaches the limit. */
  lemma {:induction false} CollapseLaw(cfg: Config, s: System, actions: seq<Action>)
    requires Sane(cfg) && WindowOk(cfg, s.st) && Unanswered(cfg, s, actions)
    ensures var end := Run(cfg, s, actions);
            && s.past.expired <= end.past.expired
            && TimedOutBy(cfg, s.st, end.st, Timeouts(end.past.expired[|s.past.expired|..]))
    decreases |actions|
  {
    if actions == [] {
      assert s.past.expired[|s.past.expired|..] == [];
    } else {
      var t := Step(cfg, s, actions[0]);
      var end := Run(cfg, t, actions[1..]);
      UnansweredStepCounts(cfg, s, actions[0]);
      CollapseLaw(cfg, t, actions[1..]);
      SuffixTimeouts(s.past.expired, t.past.expired, end.past.expired);
    }
  }

  lemma SuffixTimeouts(a: seq<Slot>, b: seq<Slot>, c: seq<Slot>)
    requires a <= b <= c
    ensures Timeouts(c[|a|..]) == Timeouts(b[|a|..]) + Timeouts(c[|b|..])
  {
    TimeoutsConcat(b[|a|..], c[|b|..]);
    assert c[|a|..] == b[|a|..] + c[|b|..];
  }

  /** A `!` collapses the window at once, whatever it was, keeps the slots held, and pauses for the full time. */
  lemma ErrorCollapses(cfg: Config, s: System, at: Instant)
    requires Sane(cfg) && Reachable(cfg, s)
    ensures var t := Step(cfg, s, Error(at)).st;
            && t.window == cfg.windowMin && t.cleanAcks == 0 && t.inFlight == s.st.inFlight
            && t.pausedUntil.Some? && t.pausedUntil.value >= at + cfg.errorPause
            && NotBefore(s.st.pausedUntil, t.pausedUntil)
            && (t.collapsed <==> s.st.collapsed || s.st.window > cfg.windowMin)
  {
    ReachableIsSafe(cfg, s);
  }

  // ---- The latency estimate -------------------------------------------------------------

  lemma NonNegative(x: real, y: real)
    requires 0.0 <= x && 0.0 <= y
    ensures 0.0 <= x * y
  {}

  lemma BlendOffset(weight: real, a: real, b: real, x: real)
    ensures Blend(weight, a, b) - x == (1.0 - weight) * (a - x) + weight * (b - x)
  {}

  lemma BlendStaysWithin(weight: real, a: real, b: real, lo: real, hi: real)
    requires 0.0 <= weight <= 1.0 && lo <= a <= hi && lo <= b <= hi
    ensures lo <= Blend(weight, a, b) <= hi
  {
    NonNegative(1.0 - weight, a - lo);
    NonNegative(weight, b - lo);
    NonNegative(1.0 - weight, hi - a);
    NonNegative(weight, hi - b);
    BlendOffset(weight, a, b, lo);
    BlendOffset(weight, a, b, hi);
  }

  lemma ScaledKeepsOrder(factor: real, a: real, b: real)
    requires 0.0 <= factor && a <= b
    ensures Scaled(factor, a) <= Scaled(factor, b)
  {
    NonNegative(factor, b - a);
  }

  predicate AllWithin(samples: seq<real>, lo: real, hi: real) {
    forall i | 0 <= i < |samples| :: lo <= samples[i] <= hi
  }

  lemma {:induction false} SmoothedStaysWithin(weight: real, seed: real, samples: seq<real>, lo: real, hi: real)
    requires 0.0 <= weight <= 1.0 && lo <= seed <= hi && AllWithin(samples, lo, hi)
    ensures lo <= Smoothed(weight, seed, samples) <= hi
  {
    if samples != [] {
      SmoothedStaysWithin(weight, seed, Earlier(samples), lo, hi);
      BlendStaysWithin(weight, Smoothed(weight, seed, Earlier(samples)), Last(samples), lo, hi);
    }
  }

  lemma {:induction false} DeviationStaysWithin(cfg: Config, samples: seq<real>, lo: real, hi: real)
    requires Sane(cfg) && lo <= cfg.seedLatency <= hi && AllWithin(samples, lo, hi)
    ensures 0.0 <= Deviation(cfg, samples) <= hi - lo
  {
    if samples != [] {
      var earlier := Earlier(samples);
      DeviationStaysWithin(cfg, earlier, lo, hi);
      SmoothedStaysWithin(cfg.ewmaAlpha, cfg.seedLatency, earlier, lo, hi);
      var off := Abs(Last(samples) - Smoothed(cfg.ewmaAlpha, cfg.seedLatency, earlier));
      BlendStaysWithin(cfg.varBeta, Deviation(cfg, earlier), off, 0.0, hi - lo);
    }
  }

  /** A reachable controller's estimate is a fold over the latencies of its acks, in order. */
  lemma EstimateIsFold(cfg: Config, s: System)
    requires Sane(cfg) && Reachable(cfg, s)
    ensures s.st.ewma == Smoothed(cfg.ewmaAlpha, cfg.seedLatency, s.past.samples)
    ensures s.st.variance == Deviation(cfg, s.past.samples)
  {
    ReachableIsSafe(cfg, s);
  }

  lemma RtoStaysWithin(cfg: Config, st: State, lo: real, hi: real)
    requires cfg.rtoMin <= cfg.rtoMax && lo <= st.ewma <= hi && cfg.rtoFactor >= 0.0
    ensures Clamp(Scaled(cfg.rtoFactor, lo), cfg.rtoMin, cfg.rtoMax) <= Rto(cfg, st)
    ensures Rto(cfg, st) <= Clamp(Scaled(cfg.rtoFactor, hi), cfg.rtoMin, cfg.rtoMax)
  {
    ScaledKeepsOrder(cfg.rtoFactor, lo, st.ewma);
    ScaledKeepsOrder(cfg.rtoFactor, st.ewma, hi);
  }

  /** The estimate stays between the least and the greatest latency seen, its deviation within their difference,
      and the response timeout between what those two would give. */
  lemma EstimateStaysWithin(cfg: Config, s: System, lo: real, hi: real)
    requires Sane(cfg) && Reachable(cfg, s)
    requires lo <= cfg.seedLatency <= hi && AllWithin(s.past.samples, lo, hi)
    ensures lo <= s.st.ewma <= hi && 0.0 <= s.st.variance <= hi - lo
    ensures cfg.rtoFactor >= 0.0 ==>
              && Clamp(Scaled(cfg.rtoFactor, lo), cfg.rtoMin, cfg.rtoMax) <= Rto(cfg, s.st)
              && Rto(cfg, s.st) <= Clamp(Scaled(cfg.rtoFactor, hi), cfg.rtoMin, cfg.rtoMax)
  {
    EstimateIsFold(cfg, s);
    SmoothedStaysWithin(cfg.ewmaAlpha, cfg.seedLatency, s.past.samples, lo, hi);
    DeviationStaysWithin(cfg, s.past.samples, lo, hi);
    if cfg.rtoFactor >= 0.0 {
      RtoStaysWithin(cfg, s.st, lo, hi);
    }
  }

  function Repeat(x: real, k: nat): (r: seq<real>)
    ensures |r| == k
  {
    if k == 0 then [] else Repeat(x, k - 1) + [x]
  }

  function Power(x: real, k: nat): real {
    if k == 0 then 1.0 else x * Power(x, k - 1)
  }

  /** After `k` steps that each keep the same share, the distance from `x` is exactly that share to the `k`. */
  predicate Approached(before: real, after: real, x: real, keep: real, k: nat) {
    after - x == Power(keep, k) * (before - x)
  }

  predicate Keeps(before: real, after: real, keep: real, x: real) {
    after - x == Scaled(keep, before - x)
  }

  /** A sequence whose distance from `x` keeps the same share at each step. */
  predicate Approaches(es: seq<real>, keep: real, x: real) {
    forall i | 0 < i < |es| :: Keeps(es[i - 1], es[i], keep, x)
  }

  lemma {:induction false} ApproachIsGeometric(es: seq<real>, keep: real, x: real)
    requires es != [] && Approaches(es, keep, x)
    ensures Approached(es[0], Last(es), x, keep, |es| - 1)
    decreases |es|
  {
    var k := |es| - 1;
    if k > 0 {
      ApproachIsGeometric(es[..k], keep, x);
      assert Keeps(es[k - 1], es[k], keep, x);
      OneStepFurther(es[0], es[k - 1], es[k], keep, x, k - 1);
    }
  }

  lemma OneStepFurther(first: real, before: real, after: real, keep: real, x: real, k: nat)
    requires Approached(first, before, x, keep, k) && Keeps(before, after, keep, x)
    ensures Approached(first, after, x, keep, k + 1)
  {
    TwoFactors(after - x, before - x, keep, Power(keep, k), first - x);
  }

  lemma TwoFactors(a: real, b: real, q: real, p: real, d: real)
    requires a == q * b && b == p * d
    ensures a == (q * p) * d
  {}

  /** `k` equal latencies `x`, whatever came before, bring the estimate to `x` by exactly (1 - weight)^k. */
  lemma EqualSamplesConverge(weight: real, seed: real, samples: seq<real>, x: real, k: nat)
    ensures Approached(Smoothed(weight, seed, samples), Smoothed(weight, seed, samples + Repeat(x, k)),
                       x, 1.0 - weight, k)
  {
    var es := Estimates(weight, seed, samples, x, k);
    EstimatesApproach(weight, seed, samples, x, k);
    ApproachIsGeometric(es, 1.0 - weight, x);
  }

  /** The estimate after each of `k` more latencies `x`. */
  function Estimates(weight: real, seed: real, samples: seq<real>, x: real, k: nat): (es: seq<real>)
    ensures |es| == k + 1 && es[k] == Smoothed(weight, seed, samples + Repeat(x, k))
  {
    if k == 0 then [Smoothed(weight, seed, samples + Repeat(x, 0))]
    else Estimates(weight, seed, samples, x, k - 1) + [Smoothed(weight, seed, samples + Repeat(x, k))]
  }

  lemma {:induction false} EstimatesApproach(weight: real, seed: real, samples: seq<real>, x: real, k: nat)
    ensures Approaches(Estimates(weight, seed, samples, x, k), 1.0 - weight, x)
    ensures Estimates(weight, seed, samples, x, k)[0] == Smoothed(weight, seed, samples)
  {
    if k == 0 {
      assert samples + Repeat(x, 0) == samples;
    } else {
      EstimatesApproach(weight, seed, samples, x, k - 1);
      OneMoreEqual(weight, seed, samples, x, k);
    }
  }

  lemma OneMoreEqual(weight: real, seed: real, samples: seq<real>, x: real, k: nat)
    requires k > 0
    ensures Keeps(Smoothed(weight, seed, samples + Repeat(x, k - 1)), Smoothed(weight, seed, samples + Repeat(x, k)),
                  1.0 - weight, x)
  {
    assert Earlier(samples + Repeat(x, k)) == samples + Repeat(x, k - 1);
    OneBlend(weight, Smoothed(weight, seed, samples + Repeat(x, k)),
             Smoothed(weight, seed, samples + Repeat(x, k - 1)), x);
  }

  lemma OneBlend(weight: real, after: real, before: real, x: real)
    requires after == Blend(weight, before, x)
    ensures Keeps(before, after, 1.0 - weight, x)
  {}

  /** Every run whose last `k` latencies were `x` shows it in the controller's own estimate. */
  lemma EstimateConverges(cfg: Config, s: System, earlier: seq<real>, x: real, k: nat)
    requires Sane(cfg) && Reachable(cfg, s) && s.past.samples == earlier + Repeat(x, k)
    ensures Approached(Smoothed(cfg.ewmaAlpha, cfg.seedLatency, earlier), s.st.ewma, x, 1.0 - cfg.ewmaAlpha, k)
  {
    EstimateIsFold(cfg, s);
    EqualSamplesConverge(cfg.ewmaAlpha, cfg.seedLatency, earlier, x, k);
  }
}
