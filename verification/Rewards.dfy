/** Reward scoring over exact reals: dual gate, normalisation, pro-rata rewards. */
module Rewards {
  import opened Bytes
  import opened Reals

  /** `Math.pow`, of which only signs matter. */
  type Power = (real, real) -> real

  ghost predicate PowerOk(pow: Power) {
    && (forall x, y :: x >= 0.0 ==> pow(x, y) >= 0.0)
    && (forall x, y :: x > 0.0 ==> pow(x, y) > 0.0)
  }

  datatype RewardParams = RewardParams(
    alpha: real, beta: real, distributionRatePerEpoch: real, minYieldfy: real, minVaultUsd: real)

  const DEFAULT_REWARD_PARAMS: RewardParams := RewardParams(0.6, 0.4, 0.000675, 1000.0, 0.1)

  datatype ParticipantInput = ParticipantInput(wallet: Pubkey, yieldfyHeld: real, vaultUsd: real)

  datatype ParticipantScore = ParticipantScore(
    wallet: Pubkey, score: real, share: real, solReward: real, usdReward: real, eligible: bool)

  datatype Pool = Pool(usd: real, sol: real)

  predicate ThresholdsOk(params: RewardParams) {
    params.minYieldfy >= 0.0 && params.minVaultUsd >= 0.0
  }

  function ComputeScore(pow: Power, p: ParticipantInput, params: RewardParams): real {
    if p.yieldfyHeld < params.minYieldfy then 0.0
    else if p.vaultUsd < params.minVaultUsd then 0.0
    else pow(p.yieldfyHeld, params.alpha) * pow(p.vaultUsd, params.beta)
  }

  function EpochSolPool(marketCapUsd: real, solPriceUsd: real, params: RewardParams): Pool
    requires solPriceUsd != 0.0
  {
    var usd := marketCapUsd * params.distributionRatePerEpoch;
    Pool(usd, usd / solPriceUsd)
  }

  function TotalScore(pow: Power, ps: seq<ParticipantInput>, params: RewardParams): real {
    SumOf(ps, (p: ParticipantInput) => ComputeScore(pow, p, params))
  }

  function ScoreOf(pow: Power, p: ParticipantInput, total: real, pool: Pool, solPriceUsd: real,
                   params: RewardParams): ParticipantScore
  {
    var score := ComputeScore(pow, p, params);
    var share := if total > 0.0 then score / total else 0.0;
    ParticipantScore(p.wallet, score, share, pool.sol * share, pool.sol * share * solPriceUsd, score > 0.0)
  }

  function DistributeEpoch(pow: Power, ps: seq<ParticipantInput>, pool: Pool, solPriceUsd: real,
                                 params: RewardParams): (scores: seq<ParticipantScore>)
    ensures |scores| == |ps|
    ensures forall i :: 0 <= i < |ps| ==>
              scores[i] == ScoreOf(pow, ps[i], TotalScore(pow, ps, params), pool, solPriceUsd, params)
  {
    var total := TotalScore(pow, ps, params);
    seq(|ps|, i requires 0 <= i < |ps| => ScoreOf(pow, ps[i], total, pool, solPriceUsd, params))
  }

  // ------------------------------------------------------------ properties

  function Share(): ParticipantScore -> real {
    (s: ParticipantScore) => s.share
  }

  function SolReward(): ParticipantScore -> real {
    (s: ParticipantScore) => s.solReward
  }

  lemma ScoreNonNegative(pow: Power, p: ParticipantInput, params: RewardParams)
    requires PowerOk(pow) && ThresholdsOk(params)
    ensures ComputeScore(pow, p, params) >= 0.0
  {
    if p.yieldfyHeld >= params.minYieldfy && p.vaultUsd >= params.minVaultUsd {
      assert pow(p.yieldfyHeld, params.alpha) >= 0.0 && pow(p.vaultUsd, params.beta) >= 0.0;
    }
  }

  /** The dual gate: with positive minimums, a score is positive exactly when both are met. */
  lemma DualGate(pow: Power, p: ParticipantInput, params: RewardParams)
    requires PowerOk(pow) && params.minYieldfy > 0.0 && params.minVaultUsd > 0.0
    ensures ComputeScore(pow, p, params) > 0.0
       <==> p.yieldfyHeld >= params.minYieldfy && p.vaultUsd >= params.minVaultUsd
  {
    if p.yieldfyHeld >= params.minYieldfy && p.vaultUsd >= params.minVaultUsd {
      assert pow(p.yieldfyHeld, params.alpha) > 0.0 && pow(p.vaultUsd, params.beta) > 0.0;
    }
  }

  lemma {:induction false} ScoresAddUp(pow: Power, ps: seq<ParticipantInput>, scores: seq<ParticipantScore>,
                                       total: real, pool: Pool, solPriceUsd: real, params: RewardParams)
    requires total > 0.0 && |scores| == |ps|
    requires forall i :: 0 <= i < |ps| ==> scores[i] == ScoreOf(pow, ps[i], total, pool, solPriceUsd, params)
    ensures SumOf(scores, Share()) == TotalScore(pow, ps, params) / total
  {
    if ps != [] {
      ScoresAddUp(pow, ps[..|ps| - 1], scores[..|ps| - 1], total, pool, solPriceUsd, params);
      AddRatios(TotalScore(pow, ps[..|ps| - 1], params), ComputeScore(pow, ps[|ps| - 1], params), total);
    }
  }

  lemma AddRatios(a: real, b: real, total: real)
    requires total > 0.0
    ensures a / total + b / total == (a + b) / total
  {
  }

  predicate AnyEligible(scores: seq<ParticipantScore>) {
    exists i :: 0 <= i < |scores| && scores[i].eligible
  }

  /** Shares sum to exactly one when anyone is eligible and to zero otherwise, and the rewards
      sum to that fraction of the pool. */
  lemma SharesSumToOne(pow: Power, ps: seq<ParticipantInput>, pool: Pool, solPriceUsd: real, params: RewardParams)
    requires PowerOk(pow) && ThresholdsOk(params)
    ensures var scores := DistributeEpoch(pow, ps, pool, solPriceUsd, params);
            && SumOf(scores, Share()) == (if AnyEligible(scores) then 1.0 else 0.0)
            && SumOf(scores, SolReward()) == (if AnyEligible(scores) then pool.sol else 0.0)
  {
    hide SumOf, ComputeScore, DistributeEpoch, AnyEligible;
    ShareSum(pow, ps, pool, solPriceUsd, params);
    RewardsAreShares(pow, ps, pool, solPriceUsd, params);
  }

  lemma ShareSum(pow: Power, ps: seq<ParticipantInput>, pool: Pool, solPriceUsd: real, params: RewardParams)
    requires PowerOk(pow) && ThresholdsOk(params)
    ensures var scores := DistributeEpoch(pow, ps, pool, solPriceUsd, params);
            SumOf(scores, Share()) == (if AnyEligible(scores) then 1.0 else 0.0)
  {
    hide SumOf, ComputeScore, AnyEligible, PowerOk;
    var scores := DistributeEpoch(pow, ps, pool, solPriceUsd, params);
    var total := TotalScore(pow, ps, params);
    EligibleMeansPositiveTotal(pow, ps, pool, solPriceUsd, params);
    if total > 0.0 {
      ScoresAddUp(pow, ps, scores, total, pool, solPriceUsd, params);
      SelfRatio(total);
    } else {
      SumOfZero(scores, Share());
    }
  }

  predicate Shared(s: ParticipantScore, sol: real) {
    s.solReward == sol * s.share
  }

  lemma ScoreIsShared(pow: Power, p: ParticipantInput, total: real, pool: Pool, solPriceUsd: real, params: RewardParams)
    ensures Shared(ScoreOf(pow, p, total, pool, solPriceUsd, params), pool.sol)
  {
    hide ComputeScore;
  }

  lemma RewardsAreShares(pow: Power, ps: seq<ParticipantInput>, pool: Pool, solPriceUsd: real, params: RewardParams)
    ensures var scores := DistributeEpoch(pow, ps, pool, solPriceUsd, params);
            SumOf(scores, SolReward()) == pool.sol * SumOf(scores, Share())
  {
    hide SumOf, ComputeScore, Shared, ScoreOf;
    var scores := DistributeEpoch(pow, ps, pool, solPriceUsd, params);
    forall i | 0 <= i < |scores| ensures Shared(scores[i], pool.sol) {
      ScoreIsShared(pow, ps[i], TotalScore(pow, ps, params), pool, solPriceUsd, params);
    }
    SharedRewards(scores, pool.sol);
  }

  lemma SharedRewards(scores: seq<ParticipantScore>, sol: real)
    requires forall i :: 0 <= i < |scores| ==> Shared(scores[i], sol)
    ensures SumOf(scores, SolReward()) == sol * SumOf(scores, Share())
  {
    SumOfScaled(scores, Share(), SolReward(), sol);
  }

  lemma EligibleMeansPositiveTotal(pow: Power, ps: seq<ParticipantInput>, pool: Pool, solPriceUsd: real,
                                   params: RewardParams)
    requires PowerOk(pow) && ThresholdsOk(params)
    ensures AnyEligible(DistributeEpoch(pow, ps, pool, solPriceUsd, params)) <==> TotalScore(pow, ps, params) > 0.0
  {
    var scores := DistributeEpoch(pow, ps, pool, solPriceUsd, params);
    TotalBoundsScores(pow, ps, params);
    if TotalScore(pow, ps, params) > 0.0 {
      SomeoneScored(pow, ps, params);
      var i :| 0 <= i < |ps| && ComputeScore(pow, ps[i], params) > 0.0;
      assert scores[i].eligible;
    }
  }

  /** Every share lies in [0, 1] and is positive exactly for the eligible. */
  lemma SharesInRange(pow: Power, ps: seq<ParticipantInput>, pool: Pool, solPriceUsd: real, params: RewardParams,
                      i: nat)
    requires PowerOk(pow) && ThresholdsOk(params) && i < |ps|
    ensures var s := DistributeEpoch(pow, ps, pool, solPriceUsd, params)[i];
            && 0.0 <= s.share <= 1.0
            && (s.share > 0.0 <==> s.eligible)
            && s.solReward == pool.sol * s.share
            && s.wallet == ps[i].wallet
  {
    TotalBoundsScores(pow, ps, params);
    var total := TotalScore(pow, ps, params);
    if total > 0.0 {
      RatioWithin(ComputeScore(pow, ps[i], params), total);
    }
  }

  lemma TotalBoundsScores(pow: Power, ps: seq<ParticipantInput>, params: RewardParams)
    requires PowerOk(pow) && ThresholdsOk(params)
    ensures TotalScore(pow, ps, params) >= 0.0
    ensures forall i :: 0 <= i < |ps| ==> 0.0 <= ComputeScore(pow, ps[i], params) <= TotalScore(pow, ps, params)
  {
    var f := (p: ParticipantInput) => ComputeScore(pow, p, params);
    forall i | 0 <= i < |ps| ensures f(ps[i]) >= 0.0 {
      ScoreNonNegative(pow, ps[i], params);
    }
    SumOfAtLeast(ps, f);
    assert SumOf(ps, f) == TotalScore(pow, ps, params);
    forall i | 0 <= i < |ps| ensures 0.0 <= ComputeScore(pow, ps[i], params) <= TotalScore(pow, ps, params) {
      assert f(ps[i]) == ComputeScore(pow, ps[i], params);
    }
  }

  lemma SelfRatio(x: real)
    requires x > 0.0
    ensures x / x == 1.0
  {
  }

  lemma RatioWithin(x: real, total: real)
    requires 0.0 <= x <= total && total > 0.0
    ensures 0.0 <= x / total <= 1.0 && (x / total > 0.0 <==> x > 0.0)
  {
  }

  lemma {:induction false} SomeoneScored(pow: Power, ps: seq<ParticipantInput>, params: RewardParams)
    requires TotalScore(pow, ps, params) > 0.0
    ensures exists i :: 0 <= i < |ps| && ComputeScore(pow, ps[i], params) > 0.0
  {
    if ComputeScore(pow, ps[|ps| - 1], params) <= 0.0 {
      SomeoneScored(pow, ps[..|ps| - 1], params);
    }
  }

  function UsdReward(): ParticipantScore -> real {
    (s: ParticipantScore) => s.usdReward
  }

  /** What is handed out is worth the stated fraction of the market cap, no more and no less, as
      soon as anyone is eligible. */
  lemma RewardsAreWorthTheRate(pow: Power, ps: seq<ParticipantInput>, marketCapUsd: real, solPriceUsd: real,
                               params: RewardParams)
    requires PowerOk(pow) && ThresholdsOk(params) && solPriceUsd != 0.0
    ensures var pool := EpochSolPool(marketCapUsd, solPriceUsd, params);
            var scores := DistributeEpoch(pow, ps, pool, solPriceUsd, params);
            && SumOf(scores, UsdReward())
              == (if AnyEligible(scores) then marketCapUsd * params.distributionRatePerEpoch else 0.0)
            && pool.usd == marketCapUsd * params.distributionRatePerEpoch == pool.sol * solPriceUsd
  {
    var pool := EpochSolPool(marketCapUsd, solPriceUsd, params);
    var scores := DistributeEpoch(pow, ps, pool, solPriceUsd, params);
    SharesSumToOne(pow, ps, pool, solPriceUsd, params);
    hide SumOf, ComputeScore, AnyEligible, Priced, ScoreOf;
    forall i | 0 <= i < |scores| ensures Priced(scores[i], solPriceUsd) {
      ScoreIsPriced(pow, ps[i], TotalScore(pow, ps, params), pool, solPriceUsd, params);
    }
    UsdIsPricedSol(scores, solPriceUsd);
    BackToUsd(marketCapUsd * params.distributionRatePerEpoch, solPriceUsd);
  }

  predicate Priced(s: ParticipantScore, solPriceUsd: real) {
    s.usdReward == s.solReward * solPriceUsd
  }

  lemma ScoreIsPriced(pow: Power, p: ParticipantInput, total: real, pool: Pool, solPriceUsd: real, params: RewardParams)
    ensures Priced(ScoreOf(pow, p, total, pool, solPriceUsd, params), solPriceUsd)
  {
  }

  lemma UsdIsPricedSol(scores: seq<ParticipantScore>, solPriceUsd: real)
    requires forall i :: 0 <= i < |scores| ==> Priced(scores[i], solPriceUsd)
    ensures SumOf(scores, UsdReward()) == solPriceUsd * SumOf(scores, SolReward())
  {
    SumOfScaled(scores, SolReward(), UsdReward(), solPriceUsd);
  }

  lemma BackToUsd(usd: real, price: real)
    requires price != 0.0
    ensures price * (usd / price) == usd
  {
  }

  /** `pow` turns products of bases into products of powers. */
  ghost predicate Multiplicative(pow: Power) {
    forall x, y, e :: x >= 0.0 && y >= 0.0 ==> MultipliesAt(pow, x, y, e)
  }

  ghost predicate MultipliesAt(pow: Power, x: real, y: real, e: real) {
    pow(x * y, e) == pow(x, e) * pow(y, e)
  }

  /** One token and one dollar score one, where they pass the gates. */
  lemma UnitScore(pow: Power, wallet: Pubkey, params: RewardParams)
    requires pow(1.0, params.alpha) == pow(1.0, params.beta) == 1.0
    requires params.minYieldfy <= 1.0 && params.minVaultUsd <= 1.0
    ensures ComputeScore(pow, ParticipantInput(wallet, 1.0, 1.0), params) == 1.0
  {
  }

  /** Above the gates, multiplying the tokens held by c and the vault value
      by d multiplies the score by c^alpha * d^beta. */
  lemma ScoreScales(pow: Power, p: ParticipantInput, q: ParticipantInput, c: real, d: real, params: RewardParams)
    requires Multiplicative(pow) && ThresholdsOk(params) && c >= 0.0 && d >= 0.0
    requires q.yieldfyHeld == c * p.yieldfyHeld && q.vaultUsd == d * p.vaultUsd
    requires p.yieldfyHeld >= params.minYieldfy && p.vaultUsd >= params.minVaultUsd
    requires q.yieldfyHeld >= params.minYieldfy && q.vaultUsd >= params.minVaultUsd
    ensures ComputeScore(pow, q, params)
         == (pow(c, params.alpha) * pow(d, params.beta)) * ComputeScore(pow, p, params)
  {
    Multiply(pow, c, p.yieldfyHeld, q.yieldfyHeld, params.alpha);
    Multiply(pow, d, p.vaultUsd, q.vaultUsd, params.beta);
    Regroup(pow(c, params.alpha), pow(p.yieldfyHeld, params.alpha), pow(d, params.beta), pow(p.vaultUsd, params.beta));
  }

  lemma Multiply(pow: Power, x: real, y: real, xy: real, e: real)
    requires Multiplicative(pow) && x >= 0.0 && y >= 0.0 && xy == x * y
    ensures pow(xy, e) == pow(x, e) * pow(y, e)
  {
    assert MultipliesAt(pow, x, y, e);
  }

  lemma Regroup(a: real, b: real, x: real, y: real)
    ensures (a * b) * (x * y) == (a * x) * (b * y)
  {
    assert (a * b) * (x * y) == a * (b * x) * y == a * (x * b) * y;
  }

  ghost predicate SubLinear(pow: Power) {
    forall x, e :: x >= 1.0 && 0.0 <= e <= 1.0 ==> 0.0 <= pow(x, e) <= x
  }

  lemma WhaleScore(pow: Power, small: ParticipantInput, large: ParticipantInput, c: real, d: real, params: RewardParams)
    requires Multiplicative(pow) && ThresholdsOk(params) && c >= 1.0 && d >= 1.0
    requires small.yieldfyHeld >= params.minYieldfy && small.vaultUsd >= params.minVaultUsd
    requires large.yieldfyHeld == c * small.yieldfyHeld && large.vaultUsd == d * small.vaultUsd
    ensures ComputeScore(pow, large, params)
         == (pow(c, params.alpha) * pow(d, params.beta)) * ComputeScore(pow, small, params)
  {
    hide Multiplicative, ComputeScore;
    AtLeast(c, small.yieldfyHeld);
    AtLeast(d, small.vaultUsd);
    ScoreScales(pow, small, large, c, d, params);
  }

  /** Rewards follow scores: k times the score is paid k times as much. */
  lemma RewardFollowsScore(pow: Power, ps: seq<ParticipantInput>, pool: Pool, solPriceUsd: real, params: RewardParams,
                           i: nat, j: nat, k: real)
    requires i < |ps| && j < |ps|
    requires ComputeScore(pow, ps[j], params) == k * ComputeScore(pow, ps[i], params)
    ensures var scores := DistributeEpoch(pow, ps, pool, solPriceUsd, params);
            scores[j].solReward == k * scores[i].solReward
  {
    hide SumOf, ComputeScore;
    var scores, total := DistributeEpoch(pow, ps, pool, solPriceUsd, params), TotalScore(pow, ps, params);
    assert scores[i] == ScoreOf(pow, ps[i], total, pool, solPriceUsd, params);
    assert scores[j] == ScoreOf(pow, ps[j], total, pool, solPriceUsd, params);
    hide DistributeEpoch;
    ScaledReward(pool.sol, k, scores[i].score, scores[j].score, total, scores[i].share, scores[j].share);
  }

  /** Whales are dampened: of two participants in one distribution, the one with c times the tokens
      and d times the vault value is paid exactly c^alpha * d^beta times as much, and with
      exponents of at most one that is no more than c * d times as much. */
  lemma WhalesAreDampened(pow: Power, ps: seq<ParticipantInput>, pool: Pool, solPriceUsd: real, params: RewardParams,
                          i: nat, j: nat, c: real, d: real)
    requires Multiplicative(pow) && ThresholdsOk(params)
    requires i < |ps| && j < |ps| && c >= 1.0 && d >= 1.0
    requires ps[i].yieldfyHeld >= params.minYieldfy && ps[i].vaultUsd >= params.minVaultUsd
    requires ps[j].yieldfyHeld == c * ps[i].yieldfyHeld && ps[j].vaultUsd == d * ps[i].vaultUsd
    ensures var scores := DistributeEpoch(pow, ps, pool, solPriceUsd, params);
      && scores[j].solReward == (pow(c, params.alpha) * pow(d, params.beta)) * scores[i].solReward
      && (SubLinear(pow) && 0.0 <= params.alpha <= 1.0 && 0.0 <= params.beta <= 1.0 && scores[i].solReward >= 0.0
          ==> scores[j].solReward <= (c * d) * scores[i].solReward)
  {
    hide ComputeScore, DistributeEpoch, Multiplicative, ScoreOf;
    var a, b := pow(c, params.alpha), pow(d, params.beta);
    WhaleScore(pow, ps[i], ps[j], c, d, params);
    RewardFollowsScore(pow, ps, pool, solPriceUsd, params, i, j, a * b);
    var x := DistributeEpoch(pow, ps, pool, solPriceUsd, params)[i].solReward;
    if SubLinear(pow) && 0.0 <= params.alpha <= 1.0 && 0.0 <= params.beta <= 1.0 && x >= 0.0 {
      FactorsBound(a, b, c, d, x);
    }
  }

  lemma AtLeast(c: real, x: real)
    requires c >= 1.0 && x >= 0.0
    ensures c * x >= x
  {
  }

  lemma ScaledReward(sol: real, k: real, x: real, y: real, total: real, r: real, q: real)
    requires y == k * x
    requires r == (if total > 0.0 then x / total else 0.0)
    requires q == (if total > 0.0 then y / total else 0.0)
    ensures sol * q == k * (sol * r)
  {
    if total > 0.0 {
      assert q == k * r by {
        assert x == r * total && y == (k * r) * total;
        SameRatio(q, k * r, total);
      }
    }
  }

  lemma SameRatio(q: real, r: real, total: real)
    requires total > 0.0 && q * total == r * total
    ensures q == r
  {
    assert (q - r) * total == 0.0;
  }

  lemma FactorsBound(a: real, b: real, c: real, d: real, x: real)
    requires 0.0 <= a <= c && 0.0 <= b <= d && x >= 0.0
    ensures (a * b) * x <= (c * d) * x
  {
    assert a * b <= c * b <= c * d;
  }

  /** Pro rata: rewards stand to one another as scores do. */
  lemma RewardsAreProRata(pow: Power, ps: seq<ParticipantInput>, pool: Pool, solPriceUsd: real, params: RewardParams,
                          i: nat, j: nat)
    requires i < |ps| && j < |ps|
    ensures var scores := DistributeEpoch(pow, ps, pool, solPriceUsd, params);
            && scores[i].score == ComputeScore(pow, ps[i], params)
            && scores[i].solReward * scores[j].score == scores[j].solReward * scores[i].score
  {
    hide SumOf, ComputeScore;
    var scores := DistributeEpoch(pow, ps, pool, solPriceUsd, params);
    CrossMultiply(pool.sol, scores[i].score, scores[j].score, TotalScore(pow, ps, params),
                  scores[i].share, scores[j].share);
    assert scores[i].solReward == pool.sol * scores[i].share && scores[j].solReward == pool.sol * scores[j].share;
  }

  lemma CrossMultiply(sol: real, x: real, y: real, total: real, r: real, q: real)
    requires r == (if total > 0.0 then x / total else 0.0)
    requires q == (if total > 0.0 then y / total else 0.0)
    ensures (sol * r) * y == (sol * q) * x
  {
    if total > 0.0 {
      assert x == r * total && y == q * total;
      Exchange(sol, r, q, total);
    }
  }

  lemma Exchange(sol: real, r: real, q: real, total: real)
    ensures (sol * r) * (q * total) == (sol * q) * (r * total)
  {
  }
}
