/** The reliability score (internal/score/score.go), with float64 read as a real number. */
module Score {
  import opened Signals

  datatype ScoreCap = ScoreCap(signal: string, rateGT: real, maxScore: real)

  datatype ConfidencePolicy = ConfidencePolicy(
    violationRateGT: real, violationLevel: string, violationCeiling: real,
    externalPctGT: real, externalLevel: string, externalCeiling: real,
    defaultLevel: string, defaultCeiling: real)

  datatype Band = Band(name: string, minScore: real)

  datatype Profile = Profile(
    id: string,
    minOperations: int,
    weights: map<string, real>,
    scoreCaps: seq<ScoreCap>,
    confidence: ConfidencePolicy,
    bands: seq<Band>,
    lowMax: real,
    mediumMax: real)
  {
    /** What validateProfile demands and the computation relies on. */
    predicate Validated() {
      minOperations > 0 && |bands| > 0
    }

    /** Ceilings and caps that keep the score inside 0..100. */
    predicate WithinRange() {
      && (forall i | 0 <= i < |scoreCaps| :: 0.0 <= scoreCaps[i].maxScore <= 100.0)
      && 0.0 <= confidence.violationCeiling <= 100.0
      && 0.0 <= confidence.externalCeiling <= 100.0
      && 0.0 <= confidence.defaultCeiling <= 100.0
    }

    /** The ceiling for protocol violations is in force (a ceiling of 0 means none) and is the lowest one. */
    predicate ViolationCeilingLowest() {
      && 0.0 < confidence.violationCeiling
      && confidence.violationCeiling <= confidence.externalCeiling
      && confidence.violationCeiling <= confidence.defaultCeiling
    }
  }

  datatype Confidence = Confidence(level: string, ceiling: real)

  datatype Scorecard = Scorecard(
    totalOperations: nat,
    signals: map<string, nat>,
    rates: map<string, real>,
    levels: map<string, string>,
    penalty: real,
    score: real,
    band: string,
    sufficient: bool,
    confidence: Confidence,
    profileId: string)

  const INSUFFICIENT_BAND := "insufficient_data"
  const VIOLATION := "protocol_violation"

  function ComputeConfidence(profile: Profile, externalPct: real, violationRate: real): Confidence {
    var c := profile.confidence;
    if violationRate > c.violationRateGT then Confidence(c.violationLevel, c.violationCeiling)
    else if externalPct > c.externalPctGT then Confidence(c.externalLevel, c.externalCeiling)
    else Confidence(c.defaultLevel, c.defaultCeiling)
  }

  /** Position of the first band whose minimum the score reaches, or the last band. */
  function BandIndex(bands: seq<Band>, score: real): (i: nat)
    requires |bands| > 0
    ensures i < |bands|
    ensures forall k | 0 <= k < i :: score < bands[k].minScore
    ensures score >= bands[i].minScore || i == |bands| - 1
  {
    if |bands| == 1 || score >= bands[0].minScore then 0 else 1 + BandIndex(bands[1..], score)
  }

  function LevelFor(profile: Profile, rate: real): string {
    if rate == 0.0 then "none"
    else if rate < profile.lowMax then "low"
    else if rate < profile.mediumMax then "medium"
    else "high"
  }

  /** Counts by signal name; a later result of the same name replaces an earlier one. */
  function CountsOf(results: seq<SignalResult>): map<string, nat> {
    if results == [] then map[]
    else
      var last := results[|results| - 1];
      CountsOf(results[..|results| - 1])[last.name := last.count]
  }

  function Rate(counts: map<string, nat>, totalOps: nat, name: string): real
    requires totalOps > 0
  {
    if name in counts then counts[name] as real / totalOps as real else 0.0
  }

  function Product(weight: real, rate: real): real {
    weight * rate
  }

  function WeightedRate(profile: Profile, counts: map<string, nat>, totalOps: nat, name: string): real
    requires totalOps > 0
  {
    if name in profile.weights then Product(profile.weights[name], Rate(counts, totalOps, name)) else 0.0
  }

  /** The unclamped penalty: the weighted rates of a set of signals, in no particular order. */
  ghost function WeightedSum(profile: Profile, counts: map<string, nat>, totalOps: nat, names: set<string>): real
    requires totalOps > 0
  {
    if names == {} then 0.0
    else
      var name :| name in names;
      WeightedRate(profile, counts, totalOps, name) + WeightedSum(profile, counts, totalOps, names - {name})
  }

  /** The sum does not depend on which signal is taken first. */
  lemma {:induction false} WeightedSumSplit(profile: Profile, counts: map<string, nat>, totalOps: nat,
                                            names: set<string>, name: string)
    requires totalOps > 0 && name in names
    ensures WeightedSum(profile, counts, totalOps, names)
         == WeightedRate(profile, counts, totalOps, name) + WeightedSum(profile, counts, totalOps, names - {name})
    decreases names
  {
    hide WeightedRate;
    var first :| first in names
      && WeightedSum(profile, counts, totalOps, names)
         == WeightedRate(profile, counts, totalOps, first) + WeightedSum(profile, counts, totalOps, names - {first});
    if first != name {
      WeightedSumSplit(profile, counts, totalOps, names - {first}, name);
      WeightedSumSplit(profile, counts, totalOps, names - {name}, first);
      assert names - {first} - {name} == names - {name} - {first};
    }
  }

  function Clamp(x: real): real {
    if x < 0.0 then 0.0 else if x > 1.0 then 1.0 else x
  }

  /** The score after the first caps of the profile that apply. */
  function Capped(caps: seq<ScoreCap>, counts: map<string, nat>, totalOps: nat, score: real): real
    requires totalOps > 0
  {
    if caps == [] then score
    else
      var before := Capped(caps[..|caps| - 1], counts, totalOps, score);
      var cap := caps[|caps| - 1];
      if Rate(counts, totalOps, cap.signal) > cap.rateGT && before > cap.maxScore then cap.maxScore else before
  }

  function RatesOf(counts: map<string, nat>, totalOps: nat): map<string, real>
    requires totalOps > 0
  {
    map name | name in counts :: Rate(counts, totalOps, name)
  }

  function LevelsOf(profile: Profile, counts: map<string, nat>, totalOps: nat): map<string, string>
    requires totalOps > 0
  {
    map name | name in counts :: LevelFor(profile, Rate(counts, totalOps, name))
  }

  ghost function PenaltyOf(profile: Profile, counts: map<string, nat>, totalOps: nat): real
    requires totalOps > 0
  {
    Clamp(WeightedSum(profile, counts, totalOps, counts.Keys))
  }

  /** A ceiling of 0 or less means that there is none. */
  function UnderCeiling(score: real, ceiling: real): real {
    if ceiling > 0.0 && score > ceiling then ceiling else score
  }

  ghost function FinalScore(profile: Profile, counts: map<string, nat>, totalOps: nat, ceiling: real): real
    requires totalOps > 0
  {
    UnderCeiling(Capped(profile.scoreCaps, counts, totalOps, 100.0 * (1.0 - PenaltyOf(profile, counts, totalOps))), ceiling)
  }

  /** The scorecard the code must arrive at. */
  ghost function ScorecardOf(profile: Profile, results: seq<SignalResult>, totalOps: nat, externalPct: real, minOps: int): Scorecard
    requires profile.Validated()
  {
    var counts := CountsOf(results);
    if totalOps < Needed(profile, minOps) then
      Scorecard(totalOps, counts, map[], map[], 0.0, -1.0, INSUFFICIENT_BAND, false,
                ComputeConfidence(profile, externalPct, 0.0), profile.id)
    else
      var confidence := ComputeConfidence(profile, externalPct, Rate(counts, totalOps, VIOLATION));
      var score := FinalScore(profile, counts, totalOps, confidence.ceiling);
      Scorecard(totalOps, counts, RatesOf(counts, totalOps), LevelsOf(profile, counts, totalOps),
                PenaltyOf(profile, counts, totalOps), score,
                profile.bands[BandIndex(profile.bands, score)].name, true, confidence, profile.id)
  }

  /** A minimum that is not positive stands for the profile's own. */
  function Needed(profile: Profile, minOps: int): (n: int)
    requires profile.Validated()
    ensures n > 0
  {
    if minOps <= 0 then profile.minOperations else minOps
  }

  method CollectCounts(results: seq<SignalResult>) returns (counts: map<string, nat>)
    ensures counts == CountsOf(results)
  {
    counts := map[];
    for i := 0 to |results|
      invariant counts == CountsOf(results[..i])
    {
      counts := counts[results[i].name := results[i].count];
      assert results[..i + 1][..i] == results[..i];
    }
    assert results[..|results|] == results;
  }

  /** Signals are visited in whatever order the map yields them. */
  method CollectRates(profile: Profile, counts: map<string, nat>, totalOps: nat)
    returns (sum: real, rates: map<string, real>, levels: map<string, string>)
    requires totalOps > 0
    ensures sum == WeightedSum(profile, counts, totalOps, counts.Keys)
    ensures rates == RatesOf(counts, totalOps)
    ensures levels == LevelsOf(profile, counts, totalOps)
  {
    hide Product, Rate;
    sum, rates, levels := 0.0, map[], map[];
    var remaining := counts.Keys;
    while remaining != {}
      invariant remaining <= counts.Keys
      invariant sum + WeightedSum(profile, counts, totalOps, remaining)
             == WeightedSum(profile, counts, totalOps, counts.Keys)
      invariant rates.Keys == levels.Keys == counts.Keys - remaining
      invariant forall name | name in rates :: rates[name] == Rate(counts, totalOps, name)
      invariant forall name | name in levels :: levels[name] == LevelFor(profile, Rate(counts, totalOps, name))
      decreases remaining
    {
      var name :| name in remaining;
      WeightedSumSplit(profile, counts, totalOps, remaining, name);
      var rate := Rate(counts, totalOps, name);
      rates := rates[name := rate];
      levels := levels[name := LevelFor(profile, rate)];
      if name in profile.weights {
        sum := sum + Product(profile.weights[name], rate);
      }
      remaining := remaining - {name};
    }
  }

  method ApplyCaps(caps: seq<ScoreCap>, counts: map<string, nat>, totalOps: nat, rates: map<string, real>, uncapped: real)
    returns (score: real)
    requires totalOps > 0 && rates == RatesOf(counts, totalOps)
    ensures score == Capped(caps, counts, totalOps, uncapped)
  {
    score := uncapped;
    for i := 0 to |caps|
      invariant score == Capped(caps[..i], counts, totalOps, uncapped)
    {
      var cap := caps[i];
      var rate := if cap.signal in rates then rates[cap.signal] else 0.0;
      assert caps[..i + 1][..i] == caps[..i];
      if rate > cap.rateGT && score > cap.maxScore {
        score := cap.maxScore;
      }
    }
    assert caps[..|caps|] == caps;
  }

  /** The computation itself. */
  method ComputeWithMinOperations(profile: Profile, results: seq<SignalResult>, totalOps: nat, externalPct: real, minOps: int)
    returns (card: Scorecard)
    requires profile.Validated()
    ensures card == ScorecardOf(profile, results, totalOps, externalPct, minOps)
  {
    hide WeightedSum, Capped, CountsOf, BandIndex, LevelsOf;
    var counts := CollectCounts(results);
    if totalOps < Needed(profile, minOps) {
      return Scorecard(totalOps, counts, map[], map[], 0.0, -1.0, INSUFFICIENT_BAND, false,
                       ComputeConfidence(profile, externalPct, 0.0), profile.id);
    }

    var penalty, rates, levels := CollectRates(profile, counts, totalOps);
    if penalty < 0.0 {
      penalty := 0.0;
    }
    if penalty > 1.0 {
      penalty := 1.0;
    }
    assert penalty == PenaltyOf(profile, counts, totalOps);
    var score := ApplyCaps(profile.scoreCaps, counts, totalOps, rates, 100.0 * (1.0 - penalty));
    var violationRate := if VIOLATION in rates then rates[VIOLATION] else 0.0;
    var confidence := ComputeConfidence(profile, externalPct, violationRate);
    if confidence.ceiling > 0.0 && score > confidence.ceiling {
      score := confidence.ceiling;
    }
    card := Scorecard(totalOps, counts, rates, levels, penalty, score,
                      profile.bands[BandIndex(profile.bands, score)].name, true, confidence, profile.id);
  }

  /** A score cap that the signal rates trigger. */
  predicate Triggered(cap: ScoreCap, counts: map<string, nat>, totalOps: nat)
    requires totalOps > 0
  {
    Rate(counts, totalOps, cap.signal) > cap.rateGT
  }

  /** Applying the caps one after the other yields the least of the score and the triggered caps. */
  lemma {:induction false} CappedIsLeast(caps: seq<ScoreCap>, counts: map<string, nat>, totalOps: nat, score: real)
    requires totalOps > 0
    ensures var c := Capped(caps, counts, totalOps, score);
      && c <= score
      && (forall i | 0 <= i < |caps| && Triggered(caps[i], counts, totalOps) :: c <= caps[i].maxScore)
      && (c == score || exists i :: 0 <= i < |caps| && Triggered(caps[i], counts, totalOps) && c == caps[i].maxScore)
  {
    if caps != [] {
      var front := caps[..|caps| - 1];
      CappedIsLeast(front, counts, totalOps, score);
      var before := Capped(front, counts, totalOps, score);
      if before != score {
        var i :| 0 <= i < |front| && Triggered(front[i], counts, totalOps) && before == front[i].maxScore;
        assert caps[i] == front[i];
      }
    }
  }

  /** The bounds a sufficient score is the least of: the penalised score, each triggered cap, the ceiling in force. */
  ghost predicate IsBound(profile: Profile, card: Scorecard, bound: real)
    requires card.totalOperations > 0
  {
    || bound == 100.0 * (1.0 - card.penalty)
    || (exists i :: 0 <= i < |profile.scoreCaps|
                    && Triggered(profile.scoreCaps[i], card.signals, card.totalOperations)
                    && bound == profile.scoreCaps[i].maxScore)
    || (card.confidence.ceiling > 0.0 && bound == card.confidence.ceiling)
  }

  /** Insufficient exactly below the minimum; otherwise the score is the least of its bounds. */
  lemma ScoreIsLeastBound(profile: Profile, results: seq<SignalResult>, totalOps: nat, externalPct: real, minOps: int)
    requires profile.Validated()
    ensures var card := ScorecardOf(profile, results, totalOps, externalPct, minOps);
      && (card.sufficient <==> totalOps >= Needed(profile, minOps))
      && (!card.sufficient ==> card.score == -1.0 && card.band == INSUFFICIENT_BAND)
      && (card.sufficient ==> IsBound(profile, card, card.score)
                              && forall bound | IsBound(profile, card, bound) :: card.score <= bound)
  {
    var card := ScorecardOf(profile, results, totalOps, externalPct, minOps);
    if card.sufficient {
      CappedIsLeast(profile.scoreCaps, card.signals, totalOps, 100.0 * (1.0 - card.penalty));
    }
  }

  /** With caps and ceilings in range, -1 marks insufficiency and nothing else: every other score is in 0..100. */
  lemma ScoreInRange(profile: Profile, results: seq<SignalResult>, totalOps: nat, externalPct: real, minOps: int)
    requires profile.Validated() && profile.WithinRange()
    ensures var card := ScorecardOf(profile, results, totalOps, externalPct, minOps);
      && (card.score == -1.0 <==> !card.sufficient)
      && (card.sufficient ==> 0.0 <= card.score <= 100.0)
  {
    ScoreIsLeastBound(profile, results, totalOps, externalPct, minOps);
  }

  /** Same signals, no count lower, and every count that grew belongs to a signal whose weight is not negative. */
  predicate RaisedHarmlessly(profile: Profile, before: map<string, nat>, after: map<string, nat>) {
    && before.Keys == after.Keys
    && (forall name | name in before :: before[name] <= after[name])
    && (forall name | name in before && before[name] < after[name] && name in profile.weights :: profile.weights[name] >= 0.0)
  }

  lemma RateMonotone(before: map<string, nat>, after: map<string, nat>, totalOps: nat, name: string)
    requires totalOps > 0 && before.Keys == after.Keys
    requires forall n | n in before :: before[n] <= after[n]
    ensures Rate(before, totalOps, name) <= Rate(after, totalOps, name)
  {
    if name in before {
      var n := totalOps as real;
      var a, b := before[name] as real, after[name] as real;
      assert b / n - a / n == (b - a) / n;
    }
  }

  lemma WeightedRateMonotone(profile: Profile, before: map<string, nat>, after: map<string, nat>, totalOps: nat, name: string)
    requires totalOps > 0 && name in before && RaisedHarmlessly(profile, before, after)
    ensures WeightedRate(profile, before, totalOps, name) <= WeightedRate(profile, after, totalOps, name)
  {
    RateMonotone(before, after, totalOps, name);
    var a, b := Rate(before, totalOps, name), Rate(after, totalOps, name);
    if name in profile.weights && before[name] < after[name] {
      MultiplyMonotone(profile.weights[name], a, b);
    }
  }

  lemma MultiplyMonotone(w: real, a: real, b: real)
    requires w >= 0.0 && a <= b
    ensures w * a <= w * b
  {
    assert w * b - w * a == w * (b - a);
  }

  lemma {:induction false} WeightedSumMonotone(profile: Profile, before: map<string, nat>, after: map<string, nat>,
                                               totalOps: nat, names: set<string>)
    requires totalOps > 0 && names <= before.Keys && RaisedHarmlessly(profile, before, after)
    ensures WeightedSum(profile, before, totalOps, names) <= WeightedSum(profile, after, totalOps, names)
    decreases names
  {
    hide WeightedRate;
    if names != {} {
      var name :| name in names;
      WeightedSumSplit(profile, before, totalOps, names, name);
      WeightedSumSplit(profile, after, totalOps, names, name);
      WeightedSumMonotone(profile, before, after, totalOps, names - {name});
      WeightedRateMonotone(profile, before, after, totalOps, name);
    }
  }

  lemma {:induction false} CappedMonotone(caps: seq<ScoreCap>, before: map<string, nat>, after: map<string, nat>,
                                          totalOps: nat, high: real, low: real)
    requires totalOps > 0 && before.Keys == after.Keys && low <= high
    requires forall n | n in before :: before[n] <= after[n]
    ensures Capped(caps, after, totalOps, low) <= Capped(caps, before, totalOps, high)
  {
    if caps != [] {
      CappedMonotone(caps[..|caps| - 1], before, after, totalOps, high, low);
      RateMonotone(before, after, totalOps, caps[|caps| - 1].signal);
    }
  }

  lemma FinalScoreMonotone(profile: Profile, before: map<string, nat>, after: map<string, nat>, totalOps: nat, externalPct: real)
    requires totalOps > 0 && profile.ViolationCeilingLowest() && RaisedHarmlessly(profile, before, after)
    ensures FinalScore(profile, after, totalOps, ComputeConfidence(profile, externalPct, Rate(after, totalOps, VIOLATION)).ceiling)
         <= FinalScore(profile, before, totalOps, ComputeConfidence(profile, externalPct, Rate(before, totalOps, VIOLATION)).ceiling)
  {
    WeightedSumMonotone(profile, before, after, totalOps, before.Keys);
    var pb, pa := PenaltyOf(profile, before, totalOps), PenaltyOf(profile, after, totalOps);
    CappedMonotone(profile.scoreCaps, before, after, totalOps, 100.0 * (1.0 - pb), 100.0 * (1.0 - pa));
    RateMonotone(before, after, totalOps, VIOLATION);
    CeilingMonotone(profile, externalPct, Rate(before, totalOps, VIOLATION), Rate(after, totalOps, VIOLATION));
  }

  /** A higher violation rate never lifts the ceiling, and the ceiling is always in force. */
  lemma CeilingMonotone(profile: Profile, externalPct: real, low: real, high: real)
    requires profile.ViolationCeilingLowest() && low <= high
    ensures 0.0 < ComputeConfidence(profile, externalPct, high).ceiling <= ComputeConfidence(profile, externalPct, low).ceiling
  {
  }

  /** Raising signal counts never raises the score and never yields a better band. */
  lemma MoreSignalsNeverHelp(profile: Profile, before: seq<SignalResult>, after: seq<SignalResult>, totalOps: nat,
                             externalPct: real, minOps: int)
    requires profile.Validated() && profile.ViolationCeilingLowest()
    requires RaisedHarmlessly(profile, CountsOf(before), CountsOf(after))
    ensures var b := ScorecardOf(profile, before, totalOps, externalPct, minOps);
      var a := ScorecardOf(profile, after, totalOps, externalPct, minOps);
      && a.sufficient == b.sufficient
      && a.score <= b.score
      && BandIndex(profile.bands, b.score) <= BandIndex(profile.bands, a.score)
      && (a.sufficient ==> a.band == profile.bands[BandIndex(profile.bands, a.score)].name)
  {
    if totalOps >= Needed(profile, minOps) {
      FinalScoreMonotone(profile, CountsOf(before), CountsOf(after), totalOps, externalPct);
    }
  }

  lemma {:induction false} WeightedSumUnaffected(profile: Profile, before: map<string, nat>, after: map<string, nat>,
                                                 totalOps: nat, names: set<string>)
    requires totalOps > 0 && forall n | n in names :: n in before && n in after && before[n] == after[n]
    ensures WeightedSum(profile, before, totalOps, names) == WeightedSum(profile, after, totalOps, names)
    decreases names
  {
    hide WeightedRate;
    if names != {} {
      var name :| name in names;
      WeightedSumSplit(profile, before, totalOps, names, name);
      WeightedSumSplit(profile, after, totalOps, names, name);
      WeightedSumUnaffected(profile, before, after, totalOps, names - {name});
      WeightedRateSame(profile, before, after, totalOps, name);
    }
  }

  lemma WeightedRateSame(profile: Profile, before: map<string, nat>, after: map<string, nat>, totalOps: nat, name: string)
    requires totalOps > 0 && name in before && name in after && before[name] == after[name]
    ensures WeightedRate(profile, before, totalOps, name) == WeightedRate(profile, after, totalOps, name)
  {
    assert Rate(before, totalOps, name) == Rate(after, totalOps, name);
  }

  lemma MultiplyStrict(w: real, a: real, b: real)
    requires a < b
    ensures w * a <= w * b <==> w >= 0.0
  {
    assert w * b - w * a == w * (b - a);
    if w < 0.0 {
      assert w * (b - a) < 0.0;
    }
  }

  lemma RateStrict(low: nat, high: nat, totalOps: nat)
    requires totalOps > 0 && low < high
    ensures low as real / totalOps as real < high as real / totalOps as real
  {
    var n, a, b := totalOps as real, low as real, high as real;
    assert b / n - a / n == (b - a) / n;
  }

  lemma WeightedRateStrict(profile: Profile, before: map<string, nat>, name: string, count: nat, totalOps: nat)
    requires totalOps > 0 && name in before && before[name] < count && name in profile.weights
    ensures (WeightedRate(profile, before, totalOps, name) <= WeightedRate(profile, before[name := count], totalOps, name))
       <==> profile.weights[name] >= 0.0
  {
    RateStrict(before[name], count, totalOps);
    MultiplyStrict(profile.weights[name], Rate(before, totalOps, name), Rate(before[name := count], totalOps, name));
  }

  /** Raising one signal leaves the weighted sum, before it is clamped, no lower if and only if its weight is not negative. */
  lemma RaisingOneSignal(profile: Profile, before: map<string, nat>, name: string, count: nat, totalOps: nat)
    requires totalOps > 0 && name in before && before[name] < count && name in profile.weights
    ensures (WeightedSum(profile, before, totalOps, before.Keys)
             <= WeightedSum(profile, before[name := count], totalOps, before.Keys)) <==> profile.weights[name] >= 0.0
  {
    hide WeightedRate;
    var after := before[name := count];
    WeightedRateStrict(profile, before, name, count, totalOps);
    WeightedSumSplit(profile, before, totalOps, before.Keys, name);
    WeightedSumSplit(profile, after, totalOps, before.Keys, name);
    WeightedSumUnaffected(profile, before, after, totalOps, before.Keys - {name});
  }

  /** After clamping, a raised signal lowers the penalty if and only if its weight is negative, there was a penalty to lower,
      and the rest does not hold it at its maximum. */
  lemma PenaltyFallsExactly(profile: Profile, before: map<string, nat>, name: string, count: nat, totalOps: nat)
    requires totalOps > 0 && name in before && before[name] < count && name in profile.weights
    ensures var after := before[name := count];
      PenaltyOf(profile, after, totalOps) < PenaltyOf(profile, before, totalOps) <==>
        && profile.weights[name] < 0.0
        && WeightedSum(profile, before, totalOps, before.Keys) > 0.0
        && WeightedSum(profile, after, totalOps, before.Keys) < 1.0
  {
    hide WeightedSum;
    RaisingOneSignal(profile, before, name, count, totalOps);
    assert before[name := count].Keys == before.Keys;
  }

  /** The shipped profile: it rewards repair loops with a negative weight. */
  function ShippedProfile(): Profile {
    Profile("default.v1.1.0", 100,
            map["protocol_violation" := 0.30, "artifact_drift" := 0.25, "retry_loop" := 0.15, "blast_radius" := 0.10,
                "new_scope" := 0.05, "repair_loop" := -0.05, "thrashing" := 0.10, "risk_escalation" := 0.10],
            [ScoreCap("artifact_drift", 0.05, 85.0)],
            ConfidencePolicy(0.10, "low", 85.0, 0.50, "medium", 95.0, "high", 100.0),
            [Band("excellent", 99.0), Band("good", 95.0), Band("fair", 90.0), Band("poor", 0.0)],
            0.02, 0.10)
  }

  /** Without the sign condition the claim is false: under the shipped weights, repair loops raise the score. */
  lemma RepairLoopsRaiseTheScore()
    ensures var profile := ShippedProfile();
      && profile.Validated() && profile.WithinRange() && profile.ViolationCeilingLowest()
      && ScorecardOf(profile, RetriesAndRepairs(20, 0), 100, 0.0, 0).score == 97.0
      && ScorecardOf(profile, RetriesAndRepairs(20, 20), 100, 0.0, 0).score == 98.0
  {
    ShippedScore(0, 97.0);
    ShippedScore(20, 98.0);
  }

  /** The results differ in one count, which is no lower afterwards. */
  ghost predicate Raises(before: seq<SignalResult>, after: seq<SignalResult>, name: string) {
    var b, a := CountsOf(before), CountsOf(after);
    name in b && name in a && b[name] <= a[name] && a == b[name := a[name]]
  }

  /** With a signal raised, every cap that was triggered still is, and the ceiling is no higher, unless the signal is the protocol
      violation and its ceiling not the lowest. */
  lemma RaisedBounds(profile: Profile, before: seq<SignalResult>, after: seq<SignalResult>, name: string, totalOps: nat,
                     externalPct: real)
    requires profile.Validated() && Raises(before, after, name) && totalOps > 0
    ensures forall i | 0 <= i < |profile.scoreCaps| && Triggered(profile.scoreCaps[i], CountsOf(before), totalOps) ::
              Triggered(profile.scoreCaps[i], CountsOf(after), totalOps)
    ensures name != VIOLATION || profile.ViolationCeilingLowest() ==>
              var b := ComputeConfidence(profile, externalPct, Rate(CountsOf(before), totalOps, VIOLATION)).ceiling;
              var a := ComputeConfidence(profile, externalPct, Rate(CountsOf(after), totalOps, VIOLATION)).ceiling;
              b > 0.0 ==> 0.0 < a <= b
  {
    hide CountsOf;
    var b, a := CountsOf(before), CountsOf(after);
    assert a.Keys == b.Keys;
    forall i | 0 <= i < |profile.scoreCaps| && Triggered(profile.scoreCaps[i], b, totalOps) ensures Triggered(profile.scoreCaps[i], a, totalOps) {
      RateMonotone(b, a, totalOps, profile.scoreCaps[i].signal);
    }
    RateMonotone(b, a, totalOps, VIOLATION);
    if profile.ViolationCeilingLowest() {
      CeilingMonotone(profile, externalPct, Rate(b, totalOps, VIOLATION), Rate(a, totalOps, VIOLATION));
    }
  }

  /** Raising a signal raises the score if and only if every bound then in force exceeds the score before. Unless the signal
      is the protocol violation and its ceiling not the lowest, that is: if and only if the penalty falls, and every cap then
      triggered and the ceiling exceed what the penalty left before. */
  lemma RaisingHelpsExactly(profile: Profile, before: seq<SignalResult>, after: seq<SignalResult>, name: string, totalOps: nat,
                            externalPct: real, minOps: int)
    requires profile.Validated() && Raises(before, after, name)
    ensures var b := ScorecardOf(profile, before, totalOps, externalPct, minOps);
      var a := ScorecardOf(profile, after, totalOps, externalPct, minOps);
      var left := 100.0 * (1.0 - b.penalty);
      && (a.score > b.score <==> a.sufficient && forall bound | IsBound(profile, a, bound) :: bound > b.score)
      && (name != VIOLATION || profile.ViolationCeilingLowest() ==>
            (a.score > b.score <==>
              && a.sufficient && a.penalty < b.penalty
              && (forall i | 0 <= i < |profile.scoreCaps| && Triggered(profile.scoreCaps[i], a.signals, totalOps) ::
                    profile.scoreCaps[i].maxScore > left)
              && (a.confidence.ceiling > 0.0 ==> a.confidence.ceiling > left)))
  {
    hide CountsOf, Capped, WeightedSum, Triggered;
    var b := ScorecardOf(profile, before, totalOps, externalPct, minOps);
    var a := ScorecardOf(profile, after, totalOps, externalPct, minOps);
    var left := 100.0 * (1.0 - b.penalty);
    ScoreIsLeastBound(profile, before, totalOps, externalPct, minOps);
    ScoreIsLeastBound(profile, after, totalOps, externalPct, minOps);
    if a.sufficient {
      RaisedBounds(profile, before, after, name, totalOps, externalPct);
      assert IsBound(profile, b, left) && IsBound(profile, a, 100.0 * (1.0 - a.penalty));
      forall i | 0 <= i < |profile.scoreCaps| && Triggered(profile.scoreCaps[i], a.signals, totalOps)
        ensures IsBound(profile, a, profile.scoreCaps[i].maxScore)
      {
      }
      assert a.confidence.ceiling > 0.0 ==> IsBound(profile, a, a.confidence.ceiling);
      if a.score > b.score && (name != VIOLATION || profile.ViolationCeilingLowest()) {
        OnlyThePenaltyCanBeLifted(profile, a, b);
      }
    }
  }

  /** When every cap and the ceiling that bound one scorecard bound another with a higher score, it is the penalty that held the
      first one down. */
  lemma OnlyThePenaltyCanBeLifted(profile: Profile, a: Scorecard, b: Scorecard)
    requires a.totalOperations == b.totalOperations > 0 && IsBound(profile, b, b.score)
    requires forall bound | IsBound(profile, a, bound) :: a.score <= bound
    requires forall i | 0 <= i < |profile.scoreCaps| && Triggered(profile.scoreCaps[i], b.signals, b.totalOperations) ::
               Triggered(profile.scoreCaps[i], a.signals, a.totalOperations)
    requires b.confidence.ceiling > 0.0 ==> 0.0 < a.confidence.ceiling <= b.confidence.ceiling
    ensures a.score > b.score ==> b.score == 100.0 * (1.0 - b.penalty)
  {
    hide Triggered;
    if b.score != 100.0 * (1.0 - b.penalty) {
      if i :| 0 <= i < |profile.scoreCaps| && Triggered(profile.scoreCaps[i], b.signals, b.totalOperations)
              && b.score == profile.scoreCaps[i].maxScore {
        assert IsBound(profile, a, b.score);
      } else {
        assert IsBound(profile, a, a.confidence.ceiling);
      }
    }
  }

  /** Whatever the other signals, the sample and its external share are, more of this signal never means a higher score. */
  ghost predicate RaisingNeverHelps(profile: Profile, name: string)
    requires profile.Validated()
  {
    forall before: seq<SignalResult>, after: seq<SignalResult>, totalOps: nat, externalPct: real, minOps: int ::
      Raises(before, after, name) ==>
        ScorecardOf(profile, after, totalOps, externalPct, minOps).score <= ScorecardOf(profile, before, totalOps, externalPct, minOps).score
  }

  /** Under the shipped profile there is exactly one signal whose growth can raise the score. */
  lemma OnlyRepairLoopsHelp(name: string)
    ensures RaisingNeverHelps(ShippedProfile(), name) <==> name != "repair_loop"
  {
    hide ScorecardOf, CountsOf;
    var profile := ShippedProfile();
    if name == "repair_loop" {
      RepairLoopsRaiseTheScore();
      TwoSignalCounts(20, 0);
      TwoSignalCounts(20, 20);
      assert Raises(RetriesAndRepairs(20, 0), RetriesAndRepairs(20, 20), name);
    } else {
      forall before: seq<SignalResult>, after: seq<SignalResult>, totalOps: nat, externalPct: real, minOps: int
        | Raises(before, after, name)
        ensures ScorecardOf(profile, after, totalOps, externalPct, minOps).score
             <= ScorecardOf(profile, before, totalOps, externalPct, minOps).score
      {
        MoreSignalsNeverHelp(profile, before, after, totalOps, externalPct, minOps);
      }
    }
  }

  function RetriesAndRepairs(retries: nat, repairs: nat): seq<SignalResult> {
    [SignalResult("retry_loop", retries, []), SignalResult("repair_loop", repairs, [])]
  }

  lemma ShippedPenalty(repairs: nat)
    requires repairs <= 20
    ensures PenaltyOf(ShippedProfile(), map["retry_loop" := 20, "repair_loop" := repairs], 100) == 0.03 - 0.0005 * repairs as real
  {
    hide WeightedSum;
    var profile, counts := ShippedProfile(), map["retry_loop" := 20, "repair_loop" := repairs];
    TwoSignalSum(profile, counts, 100, "retry_loop", "repair_loop");
    assert counts.Keys == {"retry_loop", "repair_loop"};
    assert WeightedRate(profile, counts, 100, "retry_loop") == 0.03;
    assert WeightedRate(profile, counts, 100, "repair_loop") == -0.05 * (repairs as real / 100.0);
  }

  lemma ShippedScore(repairs: nat, expected: real)
    requires repairs <= 20 && expected == 97.0 + repairs as real * 0.05
    ensures ScorecardOf(ShippedProfile(), RetriesAndRepairs(20, repairs), 100, 0.0, 0).score == expected
  {
    hide PenaltyOf, Capped, CountsOf, RatesOf, LevelsOf, BandIndex;
    var profile := ShippedProfile();
    var counts := map["retry_loop" := 20, "repair_loop" := repairs];
    TwoSignalCounts(20, repairs);
    ShippedPenalty(repairs);
    assert Rate(counts, 100, "artifact_drift") == 0.0 == Rate(counts, 100, VIOLATION);
    CapUntriggered(profile.scoreCaps[0], counts, 100, expected);
  }

  lemma TwoSignalCounts(retries: nat, repairs: nat)
    ensures CountsOf(RetriesAndRepairs(retries, repairs)) == map["retry_loop" := retries, "repair_loop" := repairs]
  {
    var results := RetriesAndRepairs(retries, repairs);
    var front := results[..1];
    assert front[..0] == [];
    assert CountsOf(front) == map["retry_loop" := retries];
  }

  lemma TwoSignalSum(profile: Profile, counts: map<string, nat>, totalOps: nat, a: string, b: string)
    requires totalOps > 0 && a != b && counts.Keys == {a, b}
    ensures WeightedSum(profile, counts, totalOps, counts.Keys)
         == WeightedRate(profile, counts, totalOps, a) + WeightedRate(profile, counts, totalOps, b)
  {
    WeightedSumSplit(profile, counts, totalOps, {a, b}, a);
    WeightedSumSplit(profile, counts, totalOps, {b}, b);
    assert {a, b} - {a} == {b};
    assert {b} - {b} == {};
  }

  lemma CapUntriggered(cap: ScoreCap, counts: map<string, nat>, totalOps: nat, score: real)
    requires totalOps > 0 && !Triggered(cap, counts, totalOps)
    ensures Capped([cap], counts, totalOps, score) == score
  {
    assert [cap][..0] == [];
  }

  // The scorecard, told from profile and results

  /** Result r is the last with the name. */
  predicate LastResult(results: seq<SignalResult>, name: string, r: nat) {
    r < |results| && results[r].name == name && forall k | r < k < |results| :: results[k].name != name
  }

  lemma {:induction false} LastResultCounts(results: seq<SignalResult>, name: string)
    ensures name in CountsOf(results) <==> exists r: nat :: LastResult(results, name, r)
    ensures forall r: nat | LastResult(results, name, r) :: name in CountsOf(results) && CountsOf(results)[name] == results[r].count
  {
    if results != [] {
      var n := |results| - 1;
      LastResultCounts(results[..n], name);
      if results[n].name == name {
        assert LastResult(results, name, n);
      } else {
        forall r: nat ensures LastResult(results, name, r) <==> LastResult(results[..n], name, r) {
          assert forall k | 0 <= k < n :: results[..n][k] == results[k];
        }
      }
    }
  }

  /** The confidence that a violation rate and an external share leave: violations come first. */
  predicate TellsConfidence(policy: ConfidencePolicy, violations: real, external: real, c: Confidence) {
    if violations > policy.violationRateGT then c.level == policy.violationLevel && c.ceiling == policy.violationCeiling
    else if external > policy.externalPctGT then c.level == policy.externalLevel && c.ceiling == policy.externalCeiling
    else c.level == policy.defaultLevel && c.ceiling == policy.defaultCeiling
  }

  /** The rate of each signal per operation, and its level. */
  predicate TellsRates(profile: Profile, card: Scorecard)
    requires card.totalOperations > 0
  {
    && card.rates.Keys == card.levels.Keys == card.signals.Keys
    && forall name | name in card.signals ::
         && card.rates[name] == card.signals[name] as real / card.totalOperations as real
         && card.levels[name] == (if card.rates[name] == 0.0 then "none"
                                  else if card.rates[name] >= profile.mediumMax && card.rates[name] >= profile.lowMax then "high"
                                  else if card.rates[name] >= profile.lowMax then "medium"
                                  else "low")
  }

  /** The first band that the score reaches, or the last one. */
  ghost predicate TellsBand(bands: seq<Band>, score: real, name: string) {
    exists i :: 0 <= i < |bands| && bands[i].name == name && (forall k | 0 <= k < i :: score < bands[k].minScore)
                && (score >= bands[i].minScore || i == |bands| - 1)
  }

  /** The count of each signal is that of the last result with its name. */
  ghost predicate TellsCounts(signals: map<string, nat>, results: seq<SignalResult>) {
    && (forall name :: name in signals <==> exists r: nat :: LastResult(results, name, r))
    && forall name | name in signals :: exists r: nat :: LastResult(results, name, r) && signals[name] == results[r].count
  }

  lemma CountsTold(results: seq<SignalResult>)
    ensures TellsCounts(CountsOf(results), results)
  {
    hide CountsOf;
    forall name ensures name in CountsOf(results) <==> exists r: nat :: LastResult(results, name, r) {
      LastResultCounts(results, name);
    }
    forall name | name in CountsOf(results)
      ensures exists r: nat :: LastResult(results, name, r) && CountsOf(results)[name] == results[r].count
    {
      LastResultCounts(results, name);
      var r: nat :| LastResult(results, name, r);
    }
  }

  lemma RatesTold(profile: Profile, results: seq<SignalResult>, totalOps: nat, externalPct: real, minOps: int)
    requires profile.Validated() && totalOps >= Needed(profile, minOps)
    ensures TellsRates(profile, ScorecardOf(profile, results, totalOps, externalPct, minOps))
  {
    hide CountsOf, FinalScore, PenaltyOf, BandIndex, ComputeConfidence;
  }

  lemma ScorecardTold(profile: Profile, results: seq<SignalResult>, totalOps: nat, externalPct: real, minOps: int)
    requires profile.Validated()
    ensures var card := ScorecardOf(profile, results, totalOps, externalPct, minOps);
            && card.totalOperations == totalOps && card.profileId == profile.id && TellsCounts(card.signals, results)
            && (card.sufficient <==> totalOps >= if minOps > 0 then minOps else profile.minOperations)
            && (card.sufficient ==>
                  && TellsRates(profile, card) && TellsBand(profile.bands, card.score, card.band)
                  && var violations := if "protocol_violation" in card.rates then card.rates["protocol_violation"] else 0.0;
                     TellsConfidence(profile.confidence, violations, externalPct, card.confidence))
            && (!card.sufficient ==>
                  && card.score == -1.0 && card.band == "insufficient_data" && card.penalty == 0.0 && card.rates == map[] && card.levels == map[]
                  && TellsConfidence(profile.confidence, 0.0, externalPct, card.confidence))
  {
    hide CountsOf, FinalScore, PenaltyOf, TellsCounts, TellsRates, LevelsOf;
    CountsTold(results);
    if totalOps >= Needed(profile, minOps) {
      RatesTold(profile, results, totalOps, externalPct, minOps);
    }
  }

  /** The penalty is the sum over the signals, in any order, of weight times rate, held between 0 and 1. */
  lemma PenaltyTold(profile: Profile, counts: map<string, nat>, totalOps: nat, names: set<string>, name: string)
    requires totalOps > 0 && name in names && names <= counts.Keys
    ensures var sum, penalty := WeightedSum(profile, counts, totalOps, counts.Keys), PenaltyOf(profile, counts, totalOps);
            (0.0 <= sum <= 1.0 ==> penalty == sum) && (sum < 0.0 ==> penalty == 0.0) && (sum > 1.0 ==> penalty == 1.0)
    ensures WeightedSum(profile, counts, totalOps, {}) == 0.0
    ensures WeightedSum(profile, counts, totalOps, names) - WeightedSum(profile, counts, totalOps, names - {name})
         == if name in profile.weights then profile.weights[name] * (counts[name] as real / totalOps as real) else 0.0
  {
    WeightedSumSplit(profile, counts, totalOps, names, name);
  }
}
