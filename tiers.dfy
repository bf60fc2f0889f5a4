/**
 * The three difficulty tiers and the per-tier running average kept on each
 * user record (`gamePlayedX` / `avgSpeedX`).
 */
module Tiers {
  import opened Wrappers

  datatype Tier = Normal | NormalPlus | NormalProMax

  /** The difficulty string a client sends for a tier. */
  function Name(t: Tier): string
  {
    match t
    case Normal => "Normal"
    case NormalPlus => "NormalPlus"
    case NormalProMax => "NormalProMax"
  }

  /** The `if (difficulty === 'Normal') … else if …` chain: recognises exactly the three names. */
  function ParseTier(difficulty: string): (r: Option<Tier>)
    ensures forall t :: r == Some(t) <==> difficulty == Name(t)
  {
    if difficulty == "Normal" then Some(Normal)
    else if difficulty == "NormalPlus" then Some(NormalPlus)
    else if difficulty == "NormalProMax" then Some(NormalProMax)
    else None
  }

  /** One `(gamePlayed, avgSpeed)` pair. Averages are exact reals here. */
  datatype Aggregate = Aggregate(gamePlayed: nat, avgSpeed: real)

  /** The schema default: no games, average 0. */
  const NoScores := Aggregate(0, 0.0)

  /**
   * The running-average step `avg' = (avg*count + wpm)/(count + 1)`,
   * `count' = count + 1`: the running total `avg * count` grows by exactly `wpm`.
   */
  function AddScore(a: Aggregate, wpm: real): (r: Aggregate)
    ensures r.gamePlayed == a.gamePlayed + 1
    ensures r.avgSpeed * r.gamePlayed as real == a.avgSpeed * a.gamePlayed as real + wpm
  {
    Aggregate(a.gamePlayed + 1, (a.avgSpeed * a.gamePlayed as real + wpm) / (a.gamePlayed + 1) as real)
  }

  /** The six summary fields of a user, grouped by tier. */
  datatype Stats = Stats(normal: Aggregate, plus: Aggregate, proMax: Aggregate)

  const NoGames := Stats(NoScores, NoScores, NoScores)

  function Get(s: Stats, t: Tier): Aggregate
  {
    match t
    case Normal => s.normal
    case NormalPlus => s.plus
    case NormalProMax => s.proMax
  }

  /** Records one score in tier `t`; the other two tiers are untouched. */
  function Submit(s: Stats, t: Tier, wpm: real): (r: Stats)
    ensures Get(r, t) == AddScore(Get(s, t), wpm)
    ensures forall u :: u != t ==> Get(r, u) == Get(s, u)
  {
    var a := AddScore(Get(s, t), wpm);
    match t
    case Normal => s.(normal := a)
    case NormalPlus => s.(plus := a)
    case NormalProMax => s.(proMax := a)
  }

  function Sum(ws: seq<real>): real
  {
    if |ws| == 0 then 0.0 else Sum(ws[..|ws| - 1]) + ws[|ws| - 1]
  }

  /** The aggregate after submitting `ws`, in order, to a fresh tier. */
  function Replay(ws: seq<real>): Aggregate
  {
    if |ws| == 0 then NoScores else AddScore(Replay(ws[..|ws| - 1]), ws[|ws| - 1])
  }

  /**
   * In exact arithmetic the incremental update never drifts: after N scores
   * the count is N and the average is their arithmetic mean.
   */
  lemma {:induction false} ReplayIsMean(ws: seq<real>)
    ensures Replay(ws).gamePlayed == |ws|
    ensures Replay(ws).avgSpeed * |ws| as real == Sum(ws)
    ensures |ws| > 0 ==> Replay(ws).avgSpeed == Sum(ws) / |ws| as real
  {
    if |ws| > 0 {
      ReplayIsMean(ws[..|ws| - 1]);
    }
  }

  /**
   * With positive scores (the client's WPM is always positive) a tier's
   * average is positive exactly when it has been played.
   */
  lemma {:induction false} PositiveScoresPositiveAverage(ws: seq<real>)
    requires forall k :: 0 <= k < |ws| ==> ws[k] > 0.0
    ensures Replay(ws).avgSpeed > 0.0 <==> Replay(ws).gamePlayed > 0
  {
    ReplayIsMean(ws);
    SumOfPositives(ws);
  }

  lemma {:induction false} SumOfPositives(ws: seq<real>)
    requires forall k :: 0 <= k < |ws| ==> ws[k] > 0.0
    ensures |ws| > 0 ==> Sum(ws) > 0.0
  {
    if |ws| > 1 {
      SumOfPositives(ws[..|ws| - 1]);
    }
  }

  /**
   * Scores of 0 are counted as games yet leave the average at 0, so such a
   * tier stays off the leaderboard however often it is played.
   */
  lemma {:induction false} ZeroScoresKeepZeroAverage(ws: seq<real>)
    requires forall k :: 0 <= k < |ws| ==> ws[k] == 0.0
    ensures Replay(ws) == Aggregate(|ws|, 0.0)
  {
    if |ws| > 0 {
      ZeroScoresKeepZeroAverage(ws[..|ws| - 1]);
    }
  }

  /** Worked example: 40, 60, 50 give averages 40, 50, 50. */
  lemma ThreeScoresExample()
    ensures Replay([40.0]) == Aggregate(1, 40.0)
    ensures Replay([40.0, 60.0]) == Aggregate(2, 50.0)
    ensures Replay([40.0, 60.0, 50.0]) == Aggregate(3, 50.0)
  {
  }
}
