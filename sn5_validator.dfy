/**
 * The sn5 (OpenKaito) validator base: its score array, the hotkeys it remembers, the
 * metagraph it syncs, and the flags of its background run thread. Its resync differs from
 * the sn31 one in its early return, which also requires the hotkeys to be unchanged.
 *
 * The metagraph sync is an input (the synced snapshot); the thread itself, its coroutine
 * and the join timeout are not part of this model.
 */
module Sn5Validator {
  import opened Common
  import opened ScoreSync

  /**
   * The scores and hotkeys read back from `state.pt` by load_state. None stands for a
   * missing file and for an unreadable one (EOFError), after which nothing is loaded.
   */
  datatype SavedState = SavedState(scores: seq<real>, hotkeys: seq<Hotkey>)

  class BaseValidatorNeuron {
    var metagraph: Metagraph
    /** The hotkeys as of the last resync. */
    var hotkeys: seq<Hotkey>
    var scores: array<real>
    var isRunning: bool
    var shouldExit: bool

    /**
     * A new validator: the metagraph's hotkeys and a zero score per uid, then load_state;
     * no thread. A saved state replaces both, and its scores need not have one entry per
     * hotkey of the metagraph.
     */
    constructor(mg: Metagraph, saved: Option<SavedState>)
      ensures metagraph == mg && fresh(scores)
      ensures saved.None? ==> hotkeys == mg.hotkeys && scores[..] == Zeros(|mg.hotkeys|)
      ensures saved.Some? ==> hotkeys == saved.value.hotkeys && scores[..] == saved.value.scores
      ensures !isRunning && !shouldExit
    {
      metagraph := mg;
      hotkeys := mg.hotkeys;
      scores := new real[|mg.hotkeys|](_ => 0.0);
      if saved.Some? {
        scores := new real[|saved.value.scores|](i requires 0 <= i < |saved.value.scores| => saved.value.scores[i]);
        hotkeys := saved.value.hotkeys;
      }
      isRunning := false;
      shouldExit := false;
    }

    /**
     * resync_metagraph: after the sync, nothing more changes when the axons and the
     * remembered hotkeys both equal the metagraph's;
     * otherwise replaced hotkeys are zeroed (an IndexError ends it part-way), a grown
     * metagraph grows the array, and the hotkeys are copied.
     */
    method ResyncMetagraph(synced: Metagraph) returns (outcome: ResyncOutcome)
      modifies this, scores
      ensures metagraph == synced
      ensures outcome == Unchanged <==> old(metagraph).axons == synced.axons && old(hotkeys) == synced.hotkeys
      ensures outcome == Unchanged ==>
        scores == old(scores) && scores[..] == old(scores[..]) && hotkeys == old(hotkeys)
      ensures outcome != Unchanged ==>
        ResyncState(outcome, scores[..], hotkeys) == Resync(old(scores[..]), old(hotkeys), synced.hotkeys)
      ensures scores == old(scores) || fresh(scores)
      ensures isRunning == old(isRunning) && shouldExit == old(shouldExit)
    {
      var previous := metagraph;
      metagraph := synced;
      if previous.axons == metagraph.axons && hotkeys == metagraph.hotkeys {
        return Unchanged;
      }
      var failure := ZeroReplacedHotkeys(scores, hotkeys, metagraph.hotkeys);
      if failure.Some? {
        return RaisedIndexError(failure.value);
      }
      scores := GrowScores(scores, |hotkeys|, |metagraph.hotkeys|);
      hotkeys := metagraph.hotkeys;
      return Resynced;
    }

    /** run_in_background_thread: only a stopped validator starts. */
    method RunInBackgroundThread()
      modifies this
      ensures RunFlags(isRunning, shouldExit) == Started(old(RunFlags(isRunning, shouldExit)))
      ensures metagraph == old(metagraph) && hotkeys == old(hotkeys) && scores == old(scores)
    {
      if !isRunning {
        shouldExit := false;
        isRunning := true;
      }
    }

    /** stop_run_thread: only a running validator stops. */
    method StopRunThread()
      modifies this
      ensures RunFlags(isRunning, shouldExit) == Stopped(old(RunFlags(isRunning, shouldExit)))
      ensures metagraph == old(metagraph) && hotkeys == old(hotkeys) && scores == old(scores)
    {
      if isRunning {
        shouldExit := true;
        isRunning := false;
      }
    }

    /** __exit__: the same guarded stop. */
    method Exit()
      modifies this
      ensures RunFlags(isRunning, shouldExit) == Stopped(old(RunFlags(isRunning, shouldExit)))
      ensures metagraph == old(metagraph) && hotkeys == old(hotkeys) && scores == old(scores)
    {
      if isRunning {
        shouldExit := true;
        isRunning := false;
      }
    }
  }
}
