/**
 * The sn31 validator base: its score array, the hotkeys it remembers, the metagraph it
 * syncs, and the flags of its background run thread.
 *
 * The metagraph sync is an input (the synced snapshot); the thread itself, its coroutine
 * and the join timeout are not part of this model.
 */
module Sn31Validator {
  import opened Common
  import opened ScoreSync

  class BaseValidatorNeuron {
    var metagraph: Metagraph
    /** The hotkeys as of the last resync. */
    var hotkeys: seq<Hotkey>
    var scores: array<real>
    var isRunning: bool
    var shouldExit: bool

    /** A new validator: the metagraph's hotkeys, a zero score per uid, and no thread. */
    constructor(mg: Metagraph)
      ensures metagraph == mg && hotkeys == mg.hotkeys
      ensures fresh(scores) && scores[..] == Zeros(|mg.hotkeys|)
      ensures !isRunning && !shouldExit
    {
      metagraph := mg;
      hotkeys := mg.hotkeys;
      scores := new real[|mg.hotkeys|](_ => 0.0);
      isRunning := false;
      shouldExit := false;
    }

    /**
     * resync_metagraph: after the sync, nothing more changes when the axons are equal;
     * otherwise replaced hotkeys are zeroed (an IndexError ends it part-way), a grown
     * metagraph grows the array, and the hotkeys are copied.
     */
    method ResyncMetagraph(synced: Metagraph) returns (outcome: ResyncOutcome)
      modifies this, scores
      ensures metagraph == synced
      ensures outcome == Unchanged <==> old(metagraph).axons == synced.axons
      ensures outcome == Unchanged ==>
        scores == old(scores) && scores[..] == old(scores[..]) && hotkeys == old(hotkeys)
      ensures outcome != Unchanged ==>
        ResyncState(outcome, scores[..], hotkeys) == Resync(old(scores[..]), old(hotkeys), synced.hotkeys)
      ensures scores == old(scores) || fresh(scores)
      ensures isRunning == old(isRunning) && shouldExit == old(shouldExit)
    {
      var previous := metagraph;
      metagraph := synced;
      if previous.axons == metagraph.axons {
        return Unchanged;
      }
      var failure := ZeroReplacedHotkeys(scores, hotkeys, metagraph.hotkeys);
      if failure.Some? {
        return RaisedIndexError(failure.value);
      }
      scores := GrowScores(scores, |hotkeys|, |metagraph.hotkeys|);
      hotkeys := metagraph.hotkeys;
      return Resynced;
    }

    /**
     * update_scores: the scores become a fresh zero array of the same length with each
     * reward scattered to its uid; when scatter rejects the index they stay all zero.
     */
    method UpdateScores(rewards: seq<real>, uids: seq<int>) returns (scattered: bool)
      modifies this
      ensures fresh(scores) && scores.Length == old(scores.Length)
      ensures scattered <==> ScatterValid(old(scores.Length), uids, rewards)
      ensures scores[..] == ScatteredScores(old(scores.Length), uids, rewards)
      ensures metagraph == old(metagraph) && hotkeys == old(hotkeys)
      ensures isRunning == old(isRunning) && shouldExit == old(shouldExit)
    {
      var n := scores.Length;
      scores := new real[n](_ => 0.0);
      assert scores[..] == Zeros(n);
      if !(|uids| <= |rewards| && forall i | 0 <= i < |uids| :: 0 <= uids[i] < n) {
        return false;
      }
      var s := Scatter(scores[..], uids, rewards);
      scores := new real[n](i requires 0 <= i < n => s[i]);
      assert scores[..] == s;
      return true;
    }

    /** run_in_background_thread: only a stopped validator starts. */
    method RunInBackgroundThread()
      modifies this
      ensures RunFlags(isRunning, shouldExit) == Started(old(RunFlags(isRunning, shouldExit)))
      ensures metagraph == old(metagraph) && hotkeys == old(hotkeys) && scores == old(scores)
    {
      if !isRunning {
        shouldExit := false;
        isRunning := true;
      }
    }

    /** stop_run_thread: only a running validator stops. */
    method StopRunThread()
      modifies this
      ensures RunFlags(isRunning, shouldExit) == Stopped(old(RunFlags(isRunning, shouldExit)))
      ensures metagraph == old(metagraph) && hotkeys == old(hotkeys) && scores == old(scores)
    {
      if isRunning {
        shouldExit := true;
        isRunning := false;
      }
    }

    /** __exit__: the same guarded stop. */
    method Exit()
      modifies this
      ensures RunFlags(isRunning, shouldExit) == Stopped(old(RunFlags(isRunning, shouldExit)))
      ensures metagraph == old(metagraph) && hotkeys == old(hotkeys) && scores == old(scores)
    {
      if isRunning {
        shouldExit := true;
        isRunning := false;
      }
    }
  }
}
