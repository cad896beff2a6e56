/**
 * The epoch clock of the burn-weight scheduler: how many blocks remain in the current
 * tempo and how long to wait for the next "perfect" weight-setting moment, which is
 * DELTA blocks before the tempo closes.
 */
module EpochClock {

  /** Blocks before the end of the tempo at which weights should be set. */
  const DELTA: int := 9

  /** Seconds per block. */
  const BLOCK_TIME: int := 12

  /** Blocks until the next epoch: tempo minus the blocks since the last step. */
  function BlocksUntilNextEpoch(tempo: int, blocksSinceLastStep: int): (r: int)
    ensures r + blocksSinceLastStep == tempo
    ensures 0 <= blocksSinceLastStep <= tempo ==> 0 <= r <= tempo
  {
    tempo - blocksSinceLastStep
  }

  /**
   * Blocks to wait before the next perfect weight-setting opportunity; 0 means "act now".
   * With w = remaining - DELTA: w < 1 waits w + tempo, 1 <= w <= DELTA acts now,
   * otherwise waits w. What this promises: a non-zero wait always ends exactly DELTA
   * blocks before a tempo boundary (in this tempo or the next); within a tempo longer
   * than DELTA, "act now" happens exactly when between DELTA + 1 and 2 * DELTA blocks
   * remain; and within a tempo of at least DELTA blocks the wait is never negative and
   * never longer than the tempo.
   */
  function NextPerfectOpportunity(tempo: int, blocksSinceLastStep: int): (wait: int)
    ensures wait != 0 ==>
      blocksSinceLastStep + wait == tempo - DELTA
      || blocksSinceLastStep + wait == 2 * tempo - DELTA
    ensures 0 <= blocksSinceLastStep <= tempo && DELTA < tempo ==>
      (wait == 0 <==> DELTA < BlocksUntilNextEpoch(tempo, blocksSinceLastStep) <= 2 * DELTA)
    ensures 0 <= blocksSinceLastStep <= tempo && DELTA <= tempo ==> 0 <= wait <= tempo
  {
    var remaining := tempo - blocksSinceLastStep;
    var w := remaining - DELTA;
    if w < 1 then w + tempo
    else if w <= DELTA then 0
    else w
  }

  /** Worked examples: tempo 360 at 340 blocks waits 11, at 354 waits 357, at 345 acts now. */
  lemma NextPerfectOpportunityExamples()
    ensures NextPerfectOpportunity(360, 340) == 11
    ensures NextPerfectOpportunity(360, 354) == 357
    ensures NextPerfectOpportunity(360, 345) == 0
  {
  }
}
