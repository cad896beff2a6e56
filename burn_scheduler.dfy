/**
 * One iteration of the burn-weight scheduler: the registration and permit checks, the
 * neuron fetch, the burn target, the payload and the submission round, ending in the
 * number of blocks to wait before the next iteration.
 */
module BurnScheduler {
  import opened Common
  import opened Chain
  import opened EpochClock
  import opened BurnTarget
  import opened Payload
  import opened Submission

  /**
   * `validator_permits[this_uid]` with Python's list indexing: a negative index counts
   * from the end; None when the lookup raises (no uid, no permit list, index out of range).
   */
  function PermitAt(permits: Option<seq<bool>>, thisUid: Option<Uid>): (r: Option<bool>)
    ensures r.Some? <==>
      permits.Some? && thisUid.Some? && -|permits.value| <= thisUid.value < |permits.value|
    ensures r.Some? && thisUid.value >= 0 ==> r.value == permits.value[thisUid.value]
    ensures r.Some? && thisUid.value < 0 ==> r.value == permits.value[|permits.value| + thisUid.value]
  {
    if permits.None? || thisUid.None? then None
    else
      var n := |permits.value|;
      var i := thisUid.value;
      if 0 <= i < n then Some(permits.value[i])
      else if -n <= i < 0 then Some(permits.value[n + i])
      else None
  }

  /** ensure_validator_permit: the validator's uid when its permit flag is set, else None. */
  function EnsureValidatorPermit(permits: Option<seq<bool>>, thisUid: Option<Uid>): (r: Option<Uid>)
    ensures r.Some? ==> r == thisUid
  {
    if PermitAt(permits, thisUid) == Some(true) then thisUid else None
  }

  /**
   * For a non-negative uid the permit check passes exactly when the permit list covers
   * the uid and its flag is set; a uid beyond the list is refused instead of raising.
   */
  lemma PermitCheck(permits: seq<bool>, uid: Uid)
    requires uid >= 0
    ensures EnsureValidatorPermit(Some(permits), Some(uid)) == Some(uid) <==>
      uid < |permits| && permits[uid]
    ensures uid >= |permits| ==> EnsureValidatorPermit(Some(permits), Some(uid)).None?
  {
  }

  /** A Tempo / BlocksSinceLastStep reading. */
  datatype TempoReading = TempoReading(tempo: int, blocksSinceLastStep: int)

  /** The reading is consistent: the tempo has not run over and exceeds DELTA. */
  predicate SaneReading(c: TempoReading)
  {
    0 <= c.blocksSinceLastStep <= c.tempo && DELTA < c.tempo
  }

  /**
   * The chain's answers during one iteration. `clock` is the tempo reading when the
   * iteration gives up and `clockAfterPause` the one after the pause that follows a
   * successful round.
   */
  datatype ChainView = ChainView(
    registered: bool,
    permits: Option<seq<bool>>,
    thisUid: Option<Uid>,
    neurons: seq<Neuron>,
    subnetOwner: Option<string>,
    ownerHotkey: string,
    ownerHotkeyUid: Option<Uid>,
    minAllowedWeights: QueryResponse,
    maxWeightsLimit: QueryResponse,
    mechanismCount: nat,
    emissionSplit: seq<int>,
    accepted: set<nat>,
    clock: TempoReading,
    clockAfterPause: TempoReading)

  /** What was sent to the chain: the payload and the mechanisms it went to, in order. */
  datatype WeightsSent = WeightsSent(payload: WeightPayload, mechanisms: seq<nat>)

  /**
   * An iteration ends with a number of blocks to wait, after an inline pause of
   * `pauseSeconds`, or with an exception escaping the iteration.
   */
  datatype IterationOutcome =
    | Iteration(waitBlocks: int, pauseSeconds: int, sent: Option<WeightsSent>)
    | Crashed

  /** get_blocks_until_next_epoch on a reading. */
  function UntilEpoch(c: TempoReading): int
  {
    BlocksUntilNextEpoch(c.tempo, c.blocksSinceLastStep)
  }

  /** get_next_perfect_weight_setting_opportunity on a reading. */
  function NextOpportunity(c: TempoReading): int
  {
    NextPerfectOpportunity(c.tempo, c.blocksSinceLastStep)
  }

  /** The iteration gets as far as submitting: registered, permitted, and some neurons fetched. */
  predicate RoundRuns(c: ChainView)
  {
    c.registered && EnsureValidatorPermit(c.permits, c.thisUid).Some? && c.neurons != []
  }

  /**
   * run_burn_code: unregistered, no permit and a failed round wait until the next epoch;
   * an empty neuron list waits 5 blocks; a successful round pauses BLOCK_TIME * DELTA
   * seconds and then waits for the next perfect opportunity.
   */
  function RunBurnCode(targetUid: Option<Uid>, c: ChainView): (r: IterationOutcome)
    ensures !c.registered ==> r == Iteration(UntilEpoch(c.clock), 0, None)
    ensures c.registered && EnsureValidatorPermit(c.permits, c.thisUid).None? ==>
      r == Iteration(UntilEpoch(c.clock), 0, None)
    ensures c.registered && EnsureValidatorPermit(c.permits, c.thisUid).Some? && c.neurons == [] ==>
      r == Iteration(5, 0, None)
    ensures r.Iteration? && r.sent.Some? ==>
      var round := SubmissionOutcome(c.mechanismCount, c.emissionSplit, c.accepted);
      round.Submitted? && r.sent.value.mechanisms == round.calls
    ensures r.Iteration? && r.pauseSeconds != 0 ==>
      r.pauseSeconds == BLOCK_TIME * DELTA && r.waitBlocks == NextOpportunity(c.clockAfterPause)
    ensures r.Crashed? <==>
      RoundRuns(c) && SubmissionOutcome(c.mechanismCount, c.emissionSplit, c.accepted).Raised?
    ensures r.Iteration? && r.sent.Some? ==> RoundRuns(c)
    ensures RoundRuns(c) && SubmissionOutcome(c.mechanismCount, c.emissionSplit, c.accepted).Submitted? ==>
      var round := SubmissionOutcome(c.mechanismCount, c.emissionSplit, c.accepted);
      var thisUid := EnsureValidatorPermit(c.permits, c.thisUid);
      var burnUid := DetermineBurnUid(targetUid, c.neurons, c.subnetOwner, c.ownerHotkey, c.ownerHotkeyUid);
      r.Iteration?
      && r.sent == Some(WeightsSent(PrepareWeightPayload(c.neurons, burnUid, thisUid, c.minAllowedWeights,
                                                         c.maxWeightsLimit), round.calls))
      && (round.anySuccess ==>
            r.pauseSeconds == BLOCK_TIME * DELTA && r.waitBlocks == NextOpportunity(c.clockAfterPause))
      && (!round.anySuccess ==> r.pauseSeconds == 0 && r.waitBlocks == UntilEpoch(c.clock))
  {
    if !c.registered then Iteration(UntilEpoch(c.clock), 0, None)
    else
      var thisUid := EnsureValidatorPermit(c.permits, c.thisUid);
      if thisUid.None? then Iteration(UntilEpoch(c.clock), 0, None)
      else if c.neurons == [] then Iteration(5, 0, None)
      else
        var burnUid := DetermineBurnUid(targetUid, c.neurons, c.subnetOwner, c.ownerHotkey, c.ownerHotkeyUid);
        var payload := PrepareWeightPayload(c.neurons, burnUid, thisUid, c.minAllowedWeights, c.maxWeightsLimit);
        match SubmissionOutcome(c.mechanismCount, c.emissionSplit, c.accepted)
        case Raised(_) => Crashed
        case Submitted(calls, anySuccess) =>
          var sent := Some(WeightsSent(payload, calls));
          if anySuccess then Iteration(NextOpportunity(c.clockAfterPause), BLOCK_TIME * DELTA, sent)
          else Iteration(UntilEpoch(c.clock), 0, sent)
  }

  /**
   * A round that ran sends its payload; the pause happens exactly after a round the chain
   * accepted somewhere, and the payload went to every mechanism once.
   */
  lemma PauseIffAccepted(targetUid: Option<Uid>, c: ChainView)
    ensures var r := RunBurnCode(targetUid, c);
      RoundRuns(c) && r.Iteration? ==>
        r.sent.Some?
        && (r.pauseSeconds == BLOCK_TIME * DELTA <==>
              exists m :: 0 <= m < c.mechanismCount && m in c.accepted)
        && (forall m: int :: m in r.sent.value.mechanisms <==> 0 <= m < c.mechanismCount)
        && NoDup(r.sent.value.mechanisms)
  {
    SubmissionOutcomeCorrect(c.mechanismCount, c.emissionSplit, c.accepted);
  }

  /**
   * With consistent tempo readings no iteration waits a negative number of blocks or longer
   * than a tempo, and a wait after a successful round that is not "act now" ends exactly
   * DELTA blocks before an epoch boundary.
   */
  lemma WaitWithinTempo(targetUid: Option<Uid>, c: ChainView)
    requires SaneReading(c.clock) && SaneReading(c.clockAfterPause)
    ensures var r := RunBurnCode(targetUid, c);
      r.Iteration? ==>
        0 <= r.waitBlocks <= if r.pauseSeconds == 0 then c.clock.tempo else c.clockAfterPause.tempo
    ensures var r := RunBurnCode(targetUid, c);
      r.Iteration? && r.pauseSeconds != 0 && r.waitBlocks != 0 ==>
        var after := c.clockAfterPause;
        after.blocksSinceLastStep + r.waitBlocks == after.tempo - DELTA
        || after.blocksSinceLastStep + r.waitBlocks == 2 * after.tempo - DELTA
  {
  }

  /**
   * A round that ran sends a payload with the burn target first and the largest weight,
   * no uid twice and no more entries than min_allowed_weights.
   */
  lemma SentPayloadShape(targetUid: Option<Uid>, c: ChainView)
    ensures var r := RunBurnCode(targetUid, c);
      RoundRuns(c) && r.Iteration? ==>
        r.sent.Some? &&
        var p := r.sent.value.payload;
        |p.uids| == |p.weights| && 1 <= |p.uids| <= MinAllowedWeights(c.minAllowedWeights)
        && p.uids[0] == DetermineBurnUid(targetUid, c.neurons, c.subnetOwner, c.ownerHotkey, c.ownerHotkeyUid)
        && (targetUid.Some? ==> p.uids[0] == targetUid)
        && NoDup(p.uids)
        && (forall i :: 1 <= i < |p.weights| ==> p.weights[i] <= p.weights[0])
  {
    var r := RunBurnCode(targetUid, c);
    if r.Iteration? && r.sent.Some? {
      var burnUid := DetermineBurnUid(targetUid, c.neurons, c.subnetOwner, c.ownerHotkey, c.ownerHotkeyUid);
      var thisUid := EnsureValidatorPermit(c.permits, c.thisUid);
      PayloadShape(c.neurons, burnUid, thisUid, c.minAllowedWeights, c.maxWeightsLimit);
    }
  }
}
