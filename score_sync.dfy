/**
 * The score bookkeeping shared by the sn31 and sn5 validator bases: the score array
 * follows the metagraph (a uid whose hotkey changed loses its score, a grown metagraph
 * grows the array with zeros), rewards are scattered into a fresh array, and two flags
 * track the background run thread.
 *
 * Scores are reals: the tensors' float32 rounding is not modelled.
 */
module ScoreSync {
  import opened Common

  type Hotkey = string

  /**
   * An abstraction of an axon's chain record: the fields the model tracks. The resync
   * compares whole axon objects; two records that agree on these three fields but differ
   * elsewhere count as equal here.
   */
  datatype AxonInfo = AxonInfo(ip: string, port: int, hotkey: Hotkey)

  /** A metagraph snapshot: one axon and one hotkey per uid. Its size n is |hotkeys|. */
  datatype Metagraph = Metagraph(axons: seq<AxonInfo>, hotkeys: seq<Hotkey>)

  // ---------------------------------------------------------------- replaced hotkeys

  /** The hotkey remembered for uid differs from the metagraph's hotkey at that uid. */
  predicate Replaced(hotkeys: seq<Hotkey>, newHotkeys: seq<Hotkey>, uid: nat)
  {
    uid < |hotkeys| && uid < |newHotkeys| && hotkeys[uid] != newHotkeys[uid]
  }

  /**
   * The zeroing loop raises IndexError at uid: the metagraph has no hotkey there, or the
   * hotkey was replaced and the score array has no entry there.
   */
  predicate FailsAt(hotkeys: seq<Hotkey>, newHotkeys: seq<Hotkey>, scoreCount: nat, uid: nat)
  {
    uid < |hotkeys| && (uid >= |newHotkeys| || (hotkeys[uid] != newHotkeys[uid] && uid >= scoreCount))
  }

  /** The first uid from `k` on at which the zeroing loop raises, if any. */
  function FirstFailure(hotkeys: seq<Hotkey>, newHotkeys: seq<Hotkey>, scoreCount: nat, k: nat): (r: Option<nat>)
    ensures r.Some? ==> k <= r.value < |hotkeys| && FailsAt(hotkeys, newHotkeys, scoreCount, r.value)
                        && forall j :: k <= j < r.value ==> !FailsAt(hotkeys, newHotkeys, scoreCount, j)
    ensures r.None? <==> forall j :: k <= j < |hotkeys| ==> !FailsAt(hotkeys, newHotkeys, scoreCount, j)
    decreases |hotkeys| - k
  {
    if k >= |hotkeys| then None
    else if FailsAt(hotkeys, newHotkeys, scoreCount, k) then Some(k)
    else FirstFailure(hotkeys, newHotkeys, scoreCount, k + 1)
  }

  /** The scores after the zeroing loop has handled every uid below `upto`. */
  function ZeroReplaced(scores: seq<real>, hotkeys: seq<Hotkey>, newHotkeys: seq<Hotkey>, upto: nat): seq<real>
  {
    seq(|scores|, i requires 0 <= i < |scores| =>
      if i < upto && Replaced(hotkeys, newHotkeys, i) then 0.0 else scores[i])
  }

  /**
   * The scores after a resize to n uids, when the remembered hotkeys number fewer than n:
   * the first min(|hotkeys|, |scores|) scores, then zeros. Otherwise they are unchanged.
   */
  function Grown(scores: seq<real>, oldCount: nat, n: nat): seq<real>
  {
    if oldCount < n then
      var keep := if oldCount < |scores| then oldCount else |scores|;
      seq(n, i requires 0 <= i < n => if i < keep then scores[i] else 0.0)
    else scores
  }

  /** How a resync ended. */
  datatype ResyncOutcome = Unchanged | Resynced | RaisedIndexError(uid: nat)

  /** The score array, the remembered hotkeys and the outcome after a resync. */
  datatype ResyncState = ResyncState(outcome: ResyncOutcome, scores: seq<real>, hotkeys: seq<Hotkey>)

  /**
   * A resync once the metagraph is found changed: replaced hotkeys zeroed (up to the uid
   * that raises, if one does), then the array grown and the hotkeys copied.
   */
  function Resync(scores: seq<real>, hotkeys: seq<Hotkey>, newHotkeys: seq<Hotkey>): ResyncState
  {
    match FirstFailure(hotkeys, newHotkeys, |scores|, 0)
    case Some(uid) => ResyncState(RaisedIndexError(uid), ZeroReplaced(scores, hotkeys, newHotkeys, uid), hotkeys)
    case None =>
      ResyncState(Resynced, Grown(ZeroReplaced(scores, hotkeys, newHotkeys, |hotkeys|), |hotkeys|, |newHotkeys|),
                  newHotkeys)
  }

  /**
   * A completed resync: a replaced uid scores 0; a kept uid keeps its score unless the
   * array grew past it; growth gives exactly n entries with zeros after the copied prefix;
   * without growth the length is unchanged; the hotkeys become the metagraph's.
   */
  lemma ResyncCorrect(scores: seq<real>, hotkeys: seq<Hotkey>, newHotkeys: seq<Hotkey>)
    requires Resync(scores, hotkeys, newHotkeys).outcome == Resynced
    ensures var r := Resync(scores, hotkeys, newHotkeys);
      var grew := |hotkeys| < |newHotkeys|;
      var keep := if |hotkeys| < |scores| then |hotkeys| else |scores|;
      r.hotkeys == newHotkeys
      && (grew ==> |r.scores| == |newHotkeys|
                   && forall i :: keep <= i < |newHotkeys| ==> r.scores[i] == 0.0)
      && (!grew ==> |r.scores| == |scores|)
      && (forall i :: 0 <= i < |r.scores| && Replaced(hotkeys, newHotkeys, i) ==> r.scores[i] == 0.0)
      && (forall i :: 0 <= i < |scores| && !Replaced(hotkeys, newHotkeys, i) && (!grew || i < keep)
                      ==> r.scores[i] == scores[i])
  {
  }

  /**
   * The loop cannot raise while the metagraph has a hotkey and the array a score for every
   * remembered uid, and it does raise when the metagraph lost a uid.
   */
  lemma ResyncFailure(scores: seq<real>, hotkeys: seq<Hotkey>, newHotkeys: seq<Hotkey>)
    ensures |hotkeys| <= |newHotkeys| && |hotkeys| <= |scores| ==>
              Resync(scores, hotkeys, newHotkeys).outcome == Resynced
    ensures |newHotkeys| < |hotkeys| ==> Resync(scores, hotkeys, newHotkeys).outcome.RaisedIndexError?
    ensures var r := Resync(scores, hotkeys, newHotkeys);
      r.outcome.RaisedIndexError? ==> r.hotkeys == hotkeys && |r.scores| == |scores|
  {
    if |newHotkeys| < |hotkeys| {
      assert FailsAt(hotkeys, newHotkeys, |scores|, |newHotkeys|);
    }
  }

  /** The zeroing loop: each remembered uid whose hotkey changed gets score 0, in uid order. */
  method ZeroReplacedHotkeys(scores: array<real>, hotkeys: seq<Hotkey>, newHotkeys: seq<Hotkey>)
    returns (failure: Option<nat>)
    modifies scores
    ensures failure == FirstFailure(hotkeys, newHotkeys, scores.Length, 0)
    ensures scores[..] == ZeroReplaced(old(scores[..]), hotkeys, newHotkeys,
                                       if failure.Some? then failure.value else |hotkeys|)
  {
    for uid := 0 to |hotkeys|
      invariant scores[..] == ZeroReplaced(old(scores[..]), hotkeys, newHotkeys, uid)
      invariant forall j :: 0 <= j < uid ==> !FailsAt(hotkeys, newHotkeys, scores.Length, j)
    {
      if uid >= |newHotkeys| {
        assert FailsAt(hotkeys, newHotkeys, scores.Length, uid);
        FirstFailureAt(hotkeys, newHotkeys, scores.Length, uid);
        return Some(uid);
      }
      if hotkeys[uid] != newHotkeys[uid] {
        if uid >= scores.Length {
          FirstFailureAt(hotkeys, newHotkeys, scores.Length, uid);
          return Some(uid);
        }
        scores[uid] := 0.0;
      }
    }
    return None;
  }

  lemma FirstFailureAt(hotkeys: seq<Hotkey>, newHotkeys: seq<Hotkey>, scoreCount: nat, uid: nat)
    requires FailsAt(hotkeys, newHotkeys, scoreCount, uid)
    requires forall j :: 0 <= j < uid ==> !FailsAt(hotkeys, newHotkeys, scoreCount, j)
    ensures FirstFailure(hotkeys, newHotkeys, scoreCount, 0) == Some(uid)
  {
    var r := FirstFailure(hotkeys, newHotkeys, scoreCount, 0);
    assert r.Some? by {
      assert FailsAt(hotkeys, newHotkeys, scoreCount, uid);
    }
  }

  /**
   * The resize: a fresh zero array of n entries whose first min(oldCount, |scores|)
   * entries are the old scores; without growth the same array.
   */
  method GrowScores(scores: array<real>, oldCount: nat, n: nat) returns (r: array<real>)
    ensures r[..] == Grown(old(scores[..]), oldCount, n)
    ensures oldCount < n ==> fresh(r)
    ensures oldCount >= n ==> r == scores
  {
    if oldCount < n {
      var minLen := if oldCount < scores.Length then oldCount else scores.Length;
      r := new real[n](i reads scores => if 0 <= i < minLen then scores[i] else 0.0);
    } else {
      r := scores;
    }
  }

  // ---------------------------------------------------------------- update_scores

  /** torch.zeros_like: as many zeros as scores. */
  function Zeros(n: nat): (r: seq<real>)
    ensures |r| == n && forall i :: 0 <= i < n ==> r[i] == 0.0
  {
    seq(n, _ => 0.0)
  }

  /** scatter accepts the index: no more uids than rewards, every uid a position of the array. */
  predicate ScatterValid(n: nat, uids: seq<int>, rewards: seq<real>)
  {
    |uids| <= |rewards| && forall i :: 0 <= i < |uids| ==> 0 <= uids[i] < n
  }

  /** scatter(0, uids, rewards): position uids[i] receives rewards[i], the later write winning. */
  function Scatter(base: seq<real>, uids: seq<int>, rewards: seq<real>): (r: seq<real>)
    requires ScatterValid(|base|, uids, rewards)
    ensures |r| == |base|
  {
    if uids == [] then base
    else
      var k := |uids| - 1;
      Scatter(base, uids[..k], rewards)[uids[k] := rewards[k]]
  }

  /**
   * With distinct uids every uid receives its own reward and every other position keeps
   * the base value; the length is unchanged.
   */
  lemma {:induction false} ScatterCorrect(base: seq<real>, uids: seq<int>, rewards: seq<real>)
    requires ScatterValid(|base|, uids, rewards) && NoDup(uids)
    ensures var r := Scatter(base, uids, rewards);
      (forall i :: 0 <= i < |uids| ==> r[uids[i]] == rewards[i])
      && (forall p :: 0 <= p < |base| && p !in uids ==> r[p] == base[p])
  {
    if uids != [] {
      var k := |uids| - 1;
      var init := uids[..k];
      assert ScatterValid(|base|, init, rewards);
      assert NoDup(init);
      ScatterCorrect(base, init, rewards);
      ScatterLast(base, uids, rewards);
    }
  }

  /** The step of ScatterCorrect: the last write lands on a position no earlier uid names. */
  lemma ScatterLast(base: seq<real>, uids: seq<int>, rewards: seq<real>)
    requires ScatterValid(|base|, uids, rewards) && NoDup(uids) && uids != []
    requires var init := uids[..|uids| - 1];
      ScatterValid(|base|, init, rewards)
      && (forall i :: 0 <= i < |init| ==> Scatter(base, init, rewards)[init[i]] == rewards[i])
      && (forall p :: 0 <= p < |base| && p !in init ==> Scatter(base, init, rewards)[p] == base[p])
    ensures var r := Scatter(base, uids, rewards);
      (forall i :: 0 <= i < |uids| ==> r[uids[i]] == rewards[i])
      && (forall p :: 0 <= p < |base| && p !in uids ==> r[p] == base[p])
  {
    var k := |uids| - 1;
    var init := uids[..k];
    var prev := Scatter(base, init, rewards);
    var r := Scatter(base, uids, rewards);
    assert r == prev[uids[k] := rewards[k]];
    forall i | 0 <= i < |uids|
      ensures r[uids[i]] == rewards[i]
    {
      if i < k {
        assert init[i] == uids[i] && uids[i] != uids[k];
      }
    }
    forall p | 0 <= p < |base| && p !in uids
      ensures r[p] == base[p]
    {
      assert p != uids[k];
      assert p !in init by {
        forall j | 0 <= j < k ensures init[j] != p {
          assert init[j] == uids[j];
        }
      }
    }
  }

  /** The scores update_scores leaves: the rewards scattered into zeros, or zeros when scatter raises. */
  function ScatteredScores(n: nat, uids: seq<int>, rewards: seq<real>): seq<real>
  {
    if ScatterValid(n, uids, rewards) then Scatter(Zeros(n), uids, rewards) else Zeros(n)
  }

  /**
   * update_scores with distinct uids: the length stays, each uid's score is its reward and
   * every other score is 0; a rejected index leaves all scores 0.
   */
  lemma ScatteredScoresCorrect(n: nat, uids: seq<int>, rewards: seq<real>)
    requires NoDup(uids)
    ensures var r := ScatteredScores(n, uids, rewards);
      |r| == n
      && (ScatterValid(n, uids, rewards) ==>
            (forall i :: 0 <= i < |uids| ==> r[uids[i]] == rewards[i])
            && (forall p :: 0 <= p < n && p !in uids ==> r[p] == 0.0))
      && (!ScatterValid(n, uids, rewards) ==> forall p :: 0 <= p < n ==> r[p] == 0.0)
  {
    if ScatterValid(n, uids, rewards) {
      ScatterCorrect(Zeros(n), uids, rewards);
    }
  }

  // ---------------------------------------------------------------- run thread flags

  /** The two flags of the background run thread. */
  datatype RunFlags = RunFlags(isRunning: bool, shouldExit: bool)

  /** run_in_background_thread: a stopped validator clears should_exit and is running. */
  function Started(f: RunFlags): (r: RunFlags)
  {
    if !f.isRunning then RunFlags(true, false) else f
  }

  /** stop_run_thread and __exit__: a running validator asks its thread to exit and is stopped. */
  function Stopped(f: RunFlags): (r: RunFlags)
  {
    if f.isRunning then RunFlags(false, true) else f
  }

  /** A running thread is never asked to exit. */
  predicate FlagsConsistent(f: RunFlags)
  {
    f.isRunning ==> !f.shouldExit
  }

  /**
   * Starting leaves the validator running with should_exit clear and is idempotent;
   * stopping leaves it stopped and is idempotent; both keep the flags consistent; a
   * `with` block (start, then exit) ends stopped with should_exit set.
   */
  lemma RunFlagsCorrect(f: RunFlags)
    ensures Started(f).isRunning && Started(Started(f)) == Started(f)
    ensures FlagsConsistent(f) ==> !Started(f).shouldExit
    ensures !Stopped(f).isRunning && Stopped(Stopped(f)) == Stopped(f)
    ensures FlagsConsistent(f) ==> FlagsConsistent(Started(f)) && FlagsConsistent(Stopped(f))
    ensures Stopped(Started(f)) == RunFlags(false, true)
    ensures f.isRunning ==> Started(f) == f
    ensures !f.isRunning ==> Stopped(f) == f
  {
  }
}
