/**
 * The sn30 (Bettensor) validator's block-interval scheduler: five tasks (game data update,
 * axon queries, website upload, scoring, weight setting) each run when more blocks than
 * their interval have passed since their last stamp. The validator's attributes that
 * may be missing are optional fields. For the intervals and the four task stamps, None
 * means the attribute does not exist. For the last updated block it also covers an
 * attribute that holds None. For the last API call, None means the attribute holds None.
 *
 * The chain block and the clock are inputs; the work each task does (queries, database,
 * scoring numerics, the weight extrinsic) is not modelled, only the bookkeeping of stamps,
 * intervals, the last API call time and the score vector: its padding by the query task
 * and its replacement by the scoring result, which is an input.
 */
module Sn30Scheduler {
  import opened Common

  /** Default intervals, in blocks. */
  const UPDATE_GAME_DATA_INTERVAL: int := 10
  const QUERY_AXONS_INTERVAL: int := 25
  const SEND_DATA_TO_WEBSITE_INTERVAL: int := 15
  const SCORING_INTERVAL: int := 50
  const SET_WEIGHTS_INTERVAL: int := 300

  /** How far back a failed weight set moves its stamp. */
  const SET_WEIGHTS_RETRY_BACKOFF: int := 250

  /** The first API call looks back 15 days, in seconds. */
  const FIRST_API_LOOKBACK: int := 15 * 24 * 60 * 60

  /** A task is due when strictly more blocks than its interval have passed. */
  predicate Due(currentBlock: int, lastBlock: int, interval: int)
  {
    currentBlock - lastBlock > interval
  }

  /** The status countdown: the blocks until the interval has passed, at least 0. */
  function Countdown(currentBlock: int, lastBlock: int, interval: int): (r: int)
    ensures r >= 0
    ensures r == 0 <==> currentBlock - lastBlock >= interval
    ensures r > 0 ==> r == interval - (currentBlock - lastBlock)
  {
    if interval - (currentBlock - lastBlock) > 0 then interval - (currentBlock - lastBlock) else 0
  }

  /**
   * The countdown against the due check: it falls by one per block down to 0; a due task
   * shows 0, and a 0 countdown is due one block later at the latest. At exactly the
   * interval the countdown already shows 0 while the task is not yet due.
   */
  lemma CountdownAgreesWithDue(currentBlock: int, lastBlock: int, interval: int)
    ensures Countdown(currentBlock + 1, lastBlock, interval)
            == if Countdown(currentBlock, lastBlock, interval) > 0 then Countdown(currentBlock, lastBlock, interval) - 1 else 0
    ensures Due(currentBlock, lastBlock, interval) ==> Countdown(currentBlock, lastBlock, interval) == 0
    ensures Countdown(currentBlock, lastBlock, interval) == 0 ==> Due(currentBlock + 1, lastBlock, interval)
    ensures Countdown(currentBlock, lastBlock, interval) == 0 && !Due(currentBlock, lastBlock, interval)
            <==> currentBlock - lastBlock == interval
  {
  }

  /** The default of an attribute that may be missing: an existing value is never overwritten. */
  function OrDefault(o: Option<int>, default: int): (r: Option<int>)
    ensures r.Some?
    ensures o.Some? ==> r == o
    ensures o.None? ==> r == Some(default)
  {
    if o.Some? then o else Some(default)
  }

  /** Which of the five tasks one iteration of the run loop starts. */
  datatype DueTasks = DueTasks(updateGameData: bool, queryAxons: bool, sendData: bool, scoring: bool, setWeights: bool)

  /** The four countdowns of the status log. */
  datatype Countdowns = Countdowns(queryAxons: int, sendData: int, scoring: int, setWeights: int)

  /** How the validator's weight extrinsic ended. */
  datatype WeightCall = Succeeded | Failed | Raised

  /** `scores` padded with zeros up to n uids; never shortened. */
  function PadScores(scores: seq<real>, n: nat): (r: seq<real>)
    ensures |r| == if n > |scores| then n else |scores|
    ensures r[..|scores|] == scores
    ensures forall i :: |scores| <= i < |r| ==> r[i] == 0.0
  {
    if n > |scores| then scores + seq(n - |scores|, _ => 0.0) else scores
  }

  /** Padding twice to the same count changes nothing more, and padding keeps every score. */
  lemma PadScoresIdempotent(scores: seq<real>, n: nat)
    ensures PadScores(PadScores(scores, n), n) == PadScores(scores, n)
    ensures forall i :: 0 <= i < |scores| ==> PadScores(scores, n)[i] == scores[i]
  {
    var r := PadScores(scores, n);
    forall i | 0 <= i < |scores|
      ensures r[i] == scores[i]
    {
      assert r[..|scores|][i] == r[i];
    }
  }

  /**
   * The scores filter_and_update_axons leaves: missing scores take the re-initialised
   * ones, and existing scores are padded with zeros to the uid count; None when both are
   * missing.
   */
  function FilteredScores(scores: Option<seq<real>>, n: nat, defaults: Option<seq<real>>): (r: Option<seq<real>>)
    ensures r.None? <==> scores.None? && defaults.None?
    ensures scores.Some? ==> r == Some(PadScores(scores.value, n))
    ensures scores.None? && defaults.Some? ==> r == Some(PadScores(defaults.value, n))
  {
    if scores.Some? then Some(PadScores(scores.value, n))
    else if defaults.Some? then Some(PadScores(defaults.value, n))
    else None
  }

  class BettensorValidator {
    var lastUpdatedBlock: Option<int>
    var lastQueriedBlock: Option<int>
    var lastSentDataToWebsite: Option<int>
    var lastScoringBlock: Option<int>
    var lastSetWeightsBlock: Option<int>
    var updateGameDataInterval: Option<int>
    var queryAxonsInterval: Option<int>
    var sendDataToWebsiteInterval: Option<int>
    var scoringInterval: Option<int>
    var setWeightsInterval: Option<int>
    /** The time of the last game data fetch, in seconds; None while the attribute holds None. */
    var lastApiCall: Option<int>
    /** The score per uid, None until initialised. */
    var scores: Option<seq<real>>

    /** Every stamp and interval the run loop reads exists. */
    predicate Ready()
      reads this
    {
      lastUpdatedBlock.Some? && lastQueriedBlock.Some? && lastSentDataToWebsite.Some?
      && lastScoringBlock.Some? && lastSetWeightsBlock.Some?
      && updateGameDataInterval.Some? && queryAxonsInterval.Some? && sendDataToWebsiteInterval.Some?
      && scoringInterval.Some? && setWeightsInterval.Some?
    }

    /** The due checks of the run loop at `block`. */
    function DueAt(block: int): (r: DueTasks)
      reads this
      requires Ready()
      ensures r.setWeights <==> block - lastSetWeightsBlock.value > setWeightsInterval.value
    {
      DueTasks(
        Due(block, lastUpdatedBlock.value, updateGameDataInterval.value),
        Due(block, lastQueriedBlock.value, queryAxonsInterval.value),
        Due(block, lastSentDataToWebsite.value, sendDataToWebsiteInterval.value),
        Due(block, lastScoringBlock.value, scoringInterval.value),
        Due(block, lastSetWeightsBlock.value, setWeightsInterval.value))
    }

    /** The countdowns log_status reports at `block`. */
    function CountdownsAt(block: int): (r: Countdowns)
      reads this
      requires Ready()
      ensures r.queryAxons >= 0 && r.sendData >= 0 && r.scoring >= 0 && r.setWeights >= 0
    {
      Countdowns(
        Countdown(block, lastQueriedBlock.value, queryAxonsInterval.value),
        Countdown(block, lastSentDataToWebsite.value, sendDataToWebsiteInterval.value),
        Countdown(block, lastScoringBlock.value, scoringInterval.value),
        Countdown(block, lastSetWeightsBlock.value, setWeightsInterval.value))
    }

    /** A validator whose attributes are as they were restored; nothing is initialised yet. */
    constructor(restoredLastUpdated: Option<int>, restoredApiCall: Option<int>, restoredScores: Option<seq<real>>)
      ensures lastUpdatedBlock == restoredLastUpdated && lastApiCall == restoredApiCall && scores == restoredScores
      ensures lastQueriedBlock.None? && lastSentDataToWebsite.None? && lastScoringBlock.None? && lastSetWeightsBlock.None?
      ensures updateGameDataInterval.None? && queryAxonsInterval.None? && sendDataToWebsiteInterval.None?
      ensures scoringInterval.None? && setWeightsInterval.None?
    {
      lastUpdatedBlock := restoredLastUpdated;
      lastApiCall := restoredApiCall;
      scores := restoredScores;
      lastQueriedBlock, lastSentDataToWebsite, lastScoringBlock, lastSetWeightsBlock := None, None, None, None;
      updateGameDataInterval, queryAxonsInterval, sendDataToWebsiteInterval := None, None, None;
      scoringInterval, setWeightsInterval := None, None;
    }

    /**
     * initialize: on a first run (no truthy last updated block) the five stamps are set so
     * that the tasks come due early; then every missing interval and stamp gets its
     * default, and existing ones are kept.
     */
    method Initialize(block: int)
      modifies this
      ensures Ready()
      ensures old(lastUpdatedBlock.None? || lastUpdatedBlock == Some(0)) ==>
        lastUpdatedBlock == Some(block - 301) && lastQueriedBlock == Some(block - 11)
        && lastSentDataToWebsite == Some(block - 16) && lastScoringBlock == Some(block - 51)
        && lastSetWeightsBlock == Some(block - 301)
      ensures !old(lastUpdatedBlock.None? || lastUpdatedBlock == Some(0)) ==>
        lastUpdatedBlock == old(lastUpdatedBlock)
        && lastQueriedBlock == OrDefault(old(lastQueriedBlock), block - 10)
        && lastSentDataToWebsite == OrDefault(old(lastSentDataToWebsite), block - 15)
        && lastScoringBlock == OrDefault(old(lastScoringBlock), block - 50)
        && lastSetWeightsBlock == OrDefault(old(lastSetWeightsBlock), block - 300)
      ensures updateGameDataInterval == OrDefault(old(updateGameDataInterval), UPDATE_GAME_DATA_INTERVAL)
      ensures queryAxonsInterval == OrDefault(old(queryAxonsInterval), QUERY_AXONS_INTERVAL)
      ensures sendDataToWebsiteInterval == OrDefault(old(sendDataToWebsiteInterval), SEND_DATA_TO_WEBSITE_INTERVAL)
      ensures scoringInterval == OrDefault(old(scoringInterval), SCORING_INTERVAL)
      ensures setWeightsInterval == OrDefault(old(setWeightsInterval), SET_WEIGHTS_INTERVAL)
      ensures lastApiCall == old(lastApiCall) && scores == old(scores)
      // A first run with the default intervals starts every task but the axon queries at once.
      ensures old(lastUpdatedBlock.None? || lastUpdatedBlock == Some(0))
              && old(updateGameDataInterval.None? && queryAxonsInterval.None? && sendDataToWebsiteInterval.None?
                     && scoringInterval.None? && setWeightsInterval.None?)
              ==> DueAt(block) == DueTasks(true, false, true, true, true)
    {
      SeedFirstRun(block);
      DefaultIntervals();
      DefaultStamps(block);
    }

    /** The first-run stamps, when the last updated block is not truthy. */
    method SeedFirstRun(block: int)
      modifies this
      ensures old(lastUpdatedBlock.None? || lastUpdatedBlock == Some(0)) ==>
        lastUpdatedBlock == Some(block - 301) && lastQueriedBlock == Some(block - 11)
        && lastSentDataToWebsite == Some(block - 16) && lastScoringBlock == Some(block - 51)
        && lastSetWeightsBlock == Some(block - 301)
      ensures !old(lastUpdatedBlock.None? || lastUpdatedBlock == Some(0)) ==>
        lastUpdatedBlock == old(lastUpdatedBlock) && lastQueriedBlock == old(lastQueriedBlock)
        && lastSentDataToWebsite == old(lastSentDataToWebsite) && lastScoringBlock == old(lastScoringBlock)
        && lastSetWeightsBlock == old(lastSetWeightsBlock)
      ensures lastUpdatedBlock.Some?
      ensures updateGameDataInterval == old(updateGameDataInterval) && queryAxonsInterval == old(queryAxonsInterval)
      ensures sendDataToWebsiteInterval == old(sendDataToWebsiteInterval) && scoringInterval == old(scoringInterval)
      ensures setWeightsInterval == old(setWeightsInterval) && lastApiCall == old(lastApiCall) && scores == old(scores)
    {
      if lastUpdatedBlock.None? || lastUpdatedBlock == Some(0) {
        lastUpdatedBlock := Some(block - 301);
        lastQueriedBlock := Some(block - 11);
        lastSentDataToWebsite := Some(block - 16);
        lastScoringBlock := Some(block - 51);
        lastSetWeightsBlock := Some(block - 301);
      }
    }

    /** The default intervals, each only where the attribute is missing. */
    method DefaultIntervals()
      modifies this
      ensures updateGameDataInterval == OrDefault(old(updateGameDataInterval), UPDATE_GAME_DATA_INTERVAL)
      ensures queryAxonsInterval == OrDefault(old(queryAxonsInterval), QUERY_AXONS_INTERVAL)
      ensures sendDataToWebsiteInterval == OrDefault(old(sendDataToWebsiteInterval), SEND_DATA_TO_WEBSITE_INTERVAL)
      ensures scoringInterval == OrDefault(old(scoringInterval), SCORING_INTERVAL)
      ensures setWeightsInterval == OrDefault(old(setWeightsInterval), SET_WEIGHTS_INTERVAL)
      ensures lastUpdatedBlock == old(lastUpdatedBlock) && lastQueriedBlock == old(lastQueriedBlock)
      ensures lastSentDataToWebsite == old(lastSentDataToWebsite) && lastScoringBlock == old(lastScoringBlock)
      ensures lastSetWeightsBlock == old(lastSetWeightsBlock) && lastApiCall == old(lastApiCall) && scores == old(scores)
    {
      updateGameDataInterval := OrDefault(updateGameDataInterval, UPDATE_GAME_DATA_INTERVAL);
      queryAxonsInterval := OrDefault(queryAxonsInterval, QUERY_AXONS_INTERVAL);
      sendDataToWebsiteInterval := OrDefault(sendDataToWebsiteInterval, SEND_DATA_TO_WEBSITE_INTERVAL);
      scoringInterval := OrDefault(scoringInterval, SCORING_INTERVAL);
      setWeightsInterval := OrDefault(setWeightsInterval, SET_WEIGHTS_INTERVAL);
    }

    /** The default stamps, each only where the attribute is missing. */
    method DefaultStamps(block: int)
      modifies this
      ensures lastQueriedBlock == OrDefault(old(lastQueriedBlock), block - 10)
      ensures lastSentDataToWebsite == OrDefault(old(lastSentDataToWebsite), block - 15)
      ensures lastScoringBlock == OrDefault(old(lastScoringBlock), block - 50)
      ensures lastSetWeightsBlock == OrDefault(old(lastSetWeightsBlock), block - 300)
      ensures lastUpdatedBlock == old(lastUpdatedBlock)
      ensures updateGameDataInterval == old(updateGameDataInterval) && queryAxonsInterval == old(queryAxonsInterval)
      ensures sendDataToWebsiteInterval == old(sendDataToWebsiteInterval) && scoringInterval == old(scoringInterval)
      ensures setWeightsInterval == old(setWeightsInterval) && lastApiCall == old(lastApiCall) && scores == old(scores)
    {
      lastQueriedBlock := OrDefault(lastQueriedBlock, block - 10);
      lastSentDataToWebsite := OrDefault(lastSentDataToWebsite, block - 15);
      lastScoringBlock := OrDefault(lastScoringBlock, block - 50);
      lastSetWeightsBlock := OrDefault(lastSetWeightsBlock, block - 300);
    }

    /**
     * update_game_data: the first call looks back 15 days; a fetch that does not raise
     * moves the last API call to now; the block is stamped whatever happened.
     */
    method UpdateGameData(block: int, currentTime: int, fetchRaises: bool)
      modifies this
      ensures lastUpdatedBlock == Some(block)
      ensures !fetchRaises ==> lastApiCall == Some(currentTime)
      ensures fetchRaises ==> lastApiCall == OrDefault(old(lastApiCall), currentTime - FIRST_API_LOOKBACK)
      ensures lastQueriedBlock == old(lastQueriedBlock) && lastSentDataToWebsite == old(lastSentDataToWebsite)
      ensures lastScoringBlock == old(lastScoringBlock) && lastSetWeightsBlock == old(lastSetWeightsBlock)
      ensures updateGameDataInterval == old(updateGameDataInterval) && queryAxonsInterval == old(queryAxonsInterval)
      ensures sendDataToWebsiteInterval == old(sendDataToWebsiteInterval) && scoringInterval == old(scoringInterval)
      ensures setWeightsInterval == old(setWeightsInterval) && scores == old(scores)
    {
      if lastApiCall.None? {
        lastApiCall := Some(currentTime - FIRST_API_LOOKBACK);
      }
      if !fetchRaises {
        lastApiCall := Some(currentTime);
      }
      lastUpdatedBlock := Some(block);
    }

    /**
     * query_and_process_axons_with_game_data stamps its block before any other work. With
     * game data and a synapse (`hasGameData`) it runs filter_and_update_axons. When the
     * scores stay missing, that returns a tuple of four Nones rather than None, the
     * `result is None` test lets it through, and `len(None)` raises TypeError. The queries
     * and the response processing do not touch the scores.
     */
    method QueryAndProcessAxons(block: int, hasGameData: bool, numUids: nat, defaultScores: Option<seq<real>>)
      returns (raised: bool)
      modifies this
      ensures lastQueriedBlock == Some(block)
      ensures raised <==> hasGameData && old(scores).None? && defaultScores.None?
      ensures scores == if hasGameData then FilteredScores(old(scores), numUids, defaultScores) else old(scores)
      ensures lastUpdatedBlock == old(lastUpdatedBlock) && lastSentDataToWebsite == old(lastSentDataToWebsite)
      ensures lastScoringBlock == old(lastScoringBlock) && lastSetWeightsBlock == old(lastSetWeightsBlock)
      ensures updateGameDataInterval == old(updateGameDataInterval) && queryAxonsInterval == old(queryAxonsInterval)
      ensures sendDataToWebsiteInterval == old(sendDataToWebsiteInterval) && scoringInterval == old(scoringInterval)
      ensures setWeightsInterval == old(setWeightsInterval) && lastApiCall == old(lastApiCall)
    {
      lastQueriedBlock := Some(block);
      if !hasGameData {
        return false;
      }
      var ok := FilterAndUpdateAxons(numUids, defaultScores);
      return !ok;
    }

    /** send_data_to_website_server stamps its block before the upload. */
    method SendDataToWebsite(block: int)
      modifies this
      ensures lastSentDataToWebsite == Some(block)
      ensures lastUpdatedBlock == old(lastUpdatedBlock) && lastQueriedBlock == old(lastQueriedBlock)
      ensures lastScoringBlock == old(lastScoringBlock) && lastSetWeightsBlock == old(lastSetWeightsBlock)
      ensures updateGameDataInterval == old(updateGameDataInterval) && queryAxonsInterval == old(queryAxonsInterval)
      ensures sendDataToWebsiteInterval == old(sendDataToWebsiteInterval) && scoringInterval == old(scoringInterval)
      ensures setWeightsInterval == old(setWeightsInterval) && lastApiCall == old(lastApiCall) && scores == old(scores)
    {
      lastSentDataToWebsite := Some(block);
    }

    /**
     * scoring_run stamps its block, then replaces the scores with the scoring system's
     * result and decays the blacklisted and unqueried uids. `scored` is the score vector
     * that work leaves; None when it raises before the assignment, which the task logs and
     * swallows.
     */
    method ScoringRun(block: int, scored: Option<seq<real>>)
      modifies this
      ensures lastScoringBlock == Some(block)
      ensures scores == if scored.Some? then scored else old(scores)
      ensures lastUpdatedBlock == old(lastUpdatedBlock) && lastQueriedBlock == old(lastQueriedBlock)
      ensures lastSentDataToWebsite == old(lastSentDataToWebsite) && lastSetWeightsBlock == old(lastSetWeightsBlock)
      ensures updateGameDataInterval == old(updateGameDataInterval) && queryAxonsInterval == old(queryAxonsInterval)
      ensures sendDataToWebsiteInterval == old(sendDataToWebsiteInterval) && scoringInterval == old(scoringInterval)
      ensures setWeightsInterval == old(setWeightsInterval) && lastApiCall == old(lastApiCall)
    {
      lastScoringBlock := Some(block);
      if scored.Some? {
        scores := scored;
      }
    }

    /**
     * set_weights: a successful extrinsic stamps the block; a failed or raising one stamps
     * block - 250, so the next attempt comes 51 blocks later with the default interval;
     * then the last updated block is stamped. Without a subtensor the failure branch
     * itself raises reading the block, and nothing is stamped.
     */
    method SetWeights(block: int, subtensorPresent: bool, call: WeightCall) returns (raised: bool)
      modifies this
      ensures raised <==> !subtensorPresent
      ensures raised ==> lastSetWeightsBlock == old(lastSetWeightsBlock) && lastUpdatedBlock == old(lastUpdatedBlock)
      ensures !raised ==> lastUpdatedBlock == Some(block)
      ensures !raised && call == Succeeded ==> lastSetWeightsBlock == Some(block)
      ensures !raised && call != Succeeded ==> lastSetWeightsBlock == Some(block - SET_WEIGHTS_RETRY_BACKOFF)
      ensures lastQueriedBlock == old(lastQueriedBlock) && lastSentDataToWebsite == old(lastSentDataToWebsite)
      ensures lastScoringBlock == old(lastScoringBlock)
      ensures updateGameDataInterval == old(updateGameDataInterval) && queryAxonsInterval == old(queryAxonsInterval)
      ensures sendDataToWebsiteInterval == old(sendDataToWebsiteInterval) && scoringInterval == old(scoringInterval)
      ensures setWeightsInterval == old(setWeightsInterval) && lastApiCall == old(lastApiCall) && scores == old(scores)
    {
      var success := subtensorPresent && call == Succeeded;
      if success {
        lastSetWeightsBlock := Some(block);
      } else {
        if !subtensorPresent {
          return true;
        }
        lastSetWeightsBlock := Some(block - SET_WEIGHTS_RETRY_BACKOFF);
      }
      lastUpdatedBlock := Some(block);
      return false;
    }

    /**
     * filter_and_update_axons' score bookkeeping: missing scores are re-initialised; if
     * they are still missing nothing is returned; otherwise they are padded with zeros to
     * the number of uids. `defaultScores` is what init_default_scores leaves.
     */
    method FilterAndUpdateAxons(numUids: nat, defaultScores: Option<seq<real>>) returns (ok: bool)
      modifies this
      ensures ok <==> old(scores).Some? || defaultScores.Some?
      ensures ok ==> scores == Some(PadScores(if old(scores).Some? then old(scores).value else defaultScores.value, numUids))
      ensures !ok ==> scores.None?
      ensures scores == FilteredScores(old(scores), numUids, defaultScores)
      ensures lastUpdatedBlock == old(lastUpdatedBlock) && lastQueriedBlock == old(lastQueriedBlock)
      ensures lastSentDataToWebsite == old(lastSentDataToWebsite) && lastScoringBlock == old(lastScoringBlock)
      ensures lastSetWeightsBlock == old(lastSetWeightsBlock)
      ensures updateGameDataInterval == old(updateGameDataInterval) && queryAxonsInterval == old(queryAxonsInterval)
      ensures sendDataToWebsiteInterval == old(sendDataToWebsiteInterval) && scoringInterval == old(scoringInterval)
      ensures setWeightsInterval == old(setWeightsInterval) && lastApiCall == old(lastApiCall)
    {
      if scores.None? {
        scores := defaultScores;
      }
      if scores.None? {
        return false;
      }
      var current := scores.value;
      if numUids > |current| {
        scores := Some(current + seq(numUids - |current|, _ => 0.0));
      }
      return true;
    }

    /**
     * One iteration of the run loop at `block`: each due task runs, in order, and sets its
     * stamps and scores as the task methods above say; the others keep theirs. An exception
     * ends the iteration (and the loop): a query whose scores stay missing stops the
     * upload, scoring and weight tasks from running, and a weight set without a subtensor
     * comes last. Every task that ran is stamped, so with non-negative intervals and a
     * weight interval of at least 250 nothing is due again at the same block.
     */
    method RunIteration(block: int, currentTime: int, fetchRaises: bool, hasGameData: bool, numUids: nat,
                        defaultScores: Option<seq<real>>, scored: Option<seq<real>>,
                        subtensorPresent: bool, call: WeightCall)
      returns (due: DueTasks, raised: bool)
      requires Ready()
      modifies this
      ensures Ready()
      ensures due == old(DueAt(block))
      ensures var queryRaised := due.queryAxons && hasGameData && old(scores).None? && defaultScores.None?;
        var rest := !queryRaised;
        (raised <==> queryRaised || (due.setWeights && !subtensorPresent))
        && (due.queryAxons ==> lastQueriedBlock == Some(block))
        && (!due.queryAxons ==> lastQueriedBlock == old(lastQueriedBlock))
        && (lastSentDataToWebsite == if rest && due.sendData then Some(block) else old(lastSentDataToWebsite))
        && (lastScoringBlock == if rest && due.scoring then Some(block) else old(lastScoringBlock))
        && (rest && due.setWeights && subtensorPresent ==>
              lastSetWeightsBlock == Some(if call == Succeeded then block else block - SET_WEIGHTS_RETRY_BACKOFF))
        && (!(rest && due.setWeights && subtensorPresent) ==> lastSetWeightsBlock == old(lastSetWeightsBlock))
        && lastUpdatedBlock == (if due.updateGameData || (rest && due.setWeights && subtensorPresent)
                                then Some(block) else old(lastUpdatedBlock))
      ensures !due.updateGameData ==> lastApiCall == old(lastApiCall)
      ensures due.updateGameData && !fetchRaises ==> lastApiCall == Some(currentTime)
      ensures due.updateGameData && fetchRaises ==>
        lastApiCall == OrDefault(old(lastApiCall), currentTime - FIRST_API_LOOKBACK)
      ensures var afterQuery := if due.queryAxons && hasGameData
                                then FilteredScores(old(scores), numUids, defaultScores) else old(scores);
        var queryRaised := due.queryAxons && hasGameData && old(scores).None? && defaultScores.None?;
        scores == if !queryRaised && due.scoring && scored.Some? then scored else afterQuery
      ensures updateGameDataInterval == old(updateGameDataInterval) && queryAxonsInterval == old(queryAxonsInterval)
      ensures sendDataToWebsiteInterval == old(sendDataToWebsiteInterval) && scoringInterval == old(scoringInterval)
      ensures setWeightsInterval == old(setWeightsInterval)
      ensures !raised && updateGameDataInterval.value >= 0 && queryAxonsInterval.value >= 0
              && sendDataToWebsiteInterval.value >= 0 && scoringInterval.value >= 0
              && setWeightsInterval.value >= SET_WEIGHTS_RETRY_BACKOFF
              ==> DueAt(block) == DueTasks(false, false, false, false, false)
    {
      due := DueAt(block);
      raised := false;
      if due.updateGameData {
        UpdateGameData(block, currentTime, fetchRaises);
      }
      if due.queryAxons {
        raised := QueryAndProcessAxons(block, hasGameData, numUids, defaultScores);
        if raised {
          return;
        }
      }
      raised := RunLaterTasks(block, due, scored, subtensorPresent, call);
    }

    /** The upload, scoring and weight tasks of an iteration, each when due, in order. */
    method RunLaterTasks(block: int, due: DueTasks, scored: Option<seq<real>>, subtensorPresent: bool, call: WeightCall)
      returns (raised: bool)
      modifies this
      ensures raised <==> due.setWeights && !subtensorPresent
      ensures lastSentDataToWebsite == if due.sendData then Some(block) else old(lastSentDataToWebsite)
      ensures lastScoringBlock == if due.scoring then Some(block) else old(lastScoringBlock)
      ensures due.setWeights && subtensorPresent ==>
        lastSetWeightsBlock == Some(if call == Succeeded then block else block - SET_WEIGHTS_RETRY_BACKOFF)
      ensures !(due.setWeights && subtensorPresent) ==> lastSetWeightsBlock == old(lastSetWeightsBlock)
      ensures lastUpdatedBlock == if due.setWeights && subtensorPresent then Some(block) else old(lastUpdatedBlock)
      ensures scores == if due.scoring && scored.Some? then scored else old(scores)
      ensures lastQueriedBlock == old(lastQueriedBlock) && lastApiCall == old(lastApiCall)
      ensures updateGameDataInterval == old(updateGameDataInterval) && queryAxonsInterval == old(queryAxonsInterval)
      ensures sendDataToWebsiteInterval == old(sendDataToWebsiteInterval) && scoringInterval == old(scoringInterval)
      ensures setWeightsInterval == old(setWeightsInterval)
    {
      raised := false;
      if due.sendData {
        SendDataToWebsite(block);
      }
      if due.scoring {
        ScoringRun(block, scored);
      }
      if due.setWeights {
        raised := SetWeights(block, subtensorPresent, call);
      }
    }
  }

  /**
   * The back-off of a failed weight set: with the default interval the next attempt is due
   * exactly when more than 50 blocks have passed, while a success waits more than 300.
   */
  lemma WeightRetryBackoff(block: int, later: int)
    ensures Due(later, block - SET_WEIGHTS_RETRY_BACKOFF, SET_WEIGHTS_INTERVAL) <==> later - block > 50
    ensures Due(later, block, SET_WEIGHTS_INTERVAL) <==> later - block > 300
  {
  }
}
