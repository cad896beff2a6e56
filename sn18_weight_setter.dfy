/**
 * The sn18 (Cortex) weight setter's scheduling arithmetic and task batching: the
 * blocks left in the current epoch, when an epoch or a synthetic cycle ends, which
 * hotkeys may call the validator's axon, and how the synthetic query tasks are cut into
 * batches with at most 50 tasks per miner.
 *
 * Chain queries (the current block, LastUpdate) are inputs. The coroutines of the tasks are
 * opaque, represented by a number each; the shuffle before batching is not modelled, so
 * any order of the tasks is an input.
 */
module Sn18WeightSetter {
  import opened Common

  // ---------------------------------------------------------------- epoch arithmetic

  /** get_blocks_til_epoch: tempo - (block + 19) mod (tempo + 1). */
  function BlocksTilEpoch(tempo: nat, block: int): (r: int)
    ensures 0 <= r <= tempo
  {
    tempo - (block + 19) % (tempo + 1)
  }

  /**
   * The countdown falls by one each block and, after reaching 0, restarts at tempo; the
   * epoch boundary (countdown 0) is every block with (block + 20) mod (tempo + 1) = 0.
   */
  lemma BlocksTilEpochStep(tempo: nat, block: int)
    ensures BlocksTilEpoch(tempo, block + 1)
            == if BlocksTilEpoch(tempo, block) == 0 then tempo else BlocksTilEpoch(tempo, block) - 1
    ensures BlocksTilEpoch(tempo, block) == 0 <==> (block + 20) % (tempo + 1) == 0
  {
    var m := tempo + 1;
    var x := block + 19;
    var q, r := x / m, x % m;
    assert x == q * m + r;
    if r + 1 < m {
      RemainderUnique(x + 1, m, q, r + 1);
    } else {
      assert x + 1 == (q + 1) * m + 0;
      RemainderUnique(x + 1, m, q + 1, 0);
    }
  }

  /** The countdown repeats every tempo + 1 blocks. */
  lemma BlocksTilEpochPeriodic(tempo: nat, block: int)
    ensures BlocksTilEpoch(tempo, block + tempo + 1) == BlocksTilEpoch(tempo, block)
  {
    var m := tempo + 1;
    var x := block + 19;
    var q, r := x / m, x % m;
    assert x + m == (q + 1) * m + r;
    RemainderUnique(x + m, m, q + 1, r);
  }

  /** Within one epoch the countdown drops by exactly the blocks elapsed. */
  lemma {:induction false} BlocksTilEpochAfter(tempo: nat, block: int, j: nat)
    requires j <= BlocksTilEpoch(tempo, block)
    ensures BlocksTilEpoch(tempo, block + j) == BlocksTilEpoch(tempo, block) - j
  {
    if j > 0 {
      BlocksTilEpochAfter(tempo, block, j - 1);
      BlocksTilEpochStep(tempo, block + j - 1);
    }
  }

  /** The epoch boundary falls j blocks after `block`. */
  predicate BoundaryAfter(tempo: nat, block: int, j: int)
  {
    BlocksTilEpoch(tempo, block + j) == 0
  }

  /** A countdown below 10 means an epoch boundary within the next 10 blocks, and conversely. */
  lemma EpochBoundaryWithinTen(tempo: nat, block: int)
    ensures BlocksTilEpoch(tempo, block) < 10
            <==> exists j :: 0 <= j < 10 && BoundaryAfter(tempo, block, j)
  {
    var c := BlocksTilEpoch(tempo, block);
    if c < 10 {
      BlocksTilEpochAfter(tempo, block, c);
      assert BoundaryAfter(tempo, block, c);
    } else {
      forall j | 0 <= j < 10
        ensures !BoundaryAfter(tempo, block, j)
      {
        BlocksTilEpochAfter(tempo, block, j);
      }
    }
  }

  /**
   * is_epoch_end over its queried inputs: weights were last set at `lastUpdate`; it is
   * time when two tempos have passed, or when the epoch ends within 10 blocks and the
   * weights rate limit has passed.
   */
  predicate IsEpochEnd(tempo: nat, weightsRateLimit: int, currentBlock: int, lastUpdate: int)
  {
    var sinceUpdate := currentBlock - lastUpdate;
    sinceUpdate >= tempo * 2 || (BlocksTilEpoch(tempo, currentBlock) < 10 && sinceUpdate >= weightsRateLimit)
  }

  /**
   * Weights are due after two tempos without an update; before that, only when an epoch
   * boundary lies within the next 10 blocks and the rate limit has passed.
   */
  lemma IsEpochEndCorrect(tempo: nat, weightsRateLimit: int, currentBlock: int, lastUpdate: int)
    ensures currentBlock - lastUpdate >= 2 * tempo ==> IsEpochEnd(tempo, weightsRateLimit, currentBlock, lastUpdate)
    ensures currentBlock - lastUpdate < 2 * tempo ==>
      (IsEpochEnd(tempo, weightsRateLimit, currentBlock, lastUpdate)
       <==> currentBlock - lastUpdate >= weightsRateLimit
            && exists j :: 0 <= j < 10 && BoundaryAfter(tempo, currentBlock, j))
  {
    EpochBoundaryWithinTen(tempo, currentBlock);
  }

  /** The state is_cycle_end reads and writes. */
  class WeightSetter {
    /** The block seen by the last cycle check, None before the first. */
    var currentBlock: Option<int>
    /** The block at which the next synthetic cycle starts. */
    var nextBlockToWait: real

    constructor(next: real)
      ensures currentBlock == None && nextBlockToWait == next
    {
      currentBlock := None;
      nextBlockToWait := next;
    }

    /**
     * is_cycle_end: the queried block is remembered, and the cycle ends once it reaches
     * the next block to wait for.
     */
    method IsCycleEnd(block: int) returns (r: bool)
      modifies this
      ensures currentBlock == Some(block) && nextBlockToWait == old(nextBlockToWait)
      ensures r <==> block as real >= nextBlockToWait
    {
      if currentBlock != Some(block) {
        currentBlock := Some(block);
      }
      r := block as real >= nextBlockToWait;
    }
  }

  // ---------------------------------------------------------------- blacklist

  /** The caller's terminal info: its hotkey, which may be None. */
  datatype TerminalInfo = TerminalInfo(hotkey: Option<string>)

  /** A request: its synapse type's name and its dendrite info, which may be None. */
  datatype Synapse = Synapse(typeName: string, dendrite: Option<TerminalInfo>)

  /** str() of an optional hotkey. */
  function HotkeyText(h: Option<string>): string
  {
    if h.Some? then h.value else "None"
  }

  /**
   * base_blacklist: (blocked, reason). The validator's own hotkey and the whitelisted
   * hotkeys are accepted, every other one rejected; a request without dendrite info
   * raises inside the try and the result is None.
   */
  function BaseBlacklist(synapse: Synapse, selfHotkey: string, whitelist: seq<string>): Option<(bool, string)>
  {
    if synapse.dendrite.None? then None
    else
      var hotkey := synapse.dendrite.value.hotkey;
      var t := synapse.typeName;
      if hotkey == Some(selfHotkey) then Some((false, "accepting " + t + " request from self"))
      else if hotkey.Some? && hotkey.value in whitelist then
        Some((false, "accepting " + t + " request from whitelist: " + hotkey.value))
      else Some((true, "rejecting " + t + " request from " + HotkeyText(hotkey)))
  }

  /**
   * A request with dendrite info is rejected exactly when its hotkey is neither the
   * validator's own nor whitelisted, and the reason starts with the decision.
   */
  lemma BaseBlacklistCorrect(synapse: Synapse, selfHotkey: string, whitelist: seq<string>)
    ensures var r := BaseBlacklist(synapse, selfHotkey, whitelist);
      (r.Some? <==> synapse.dendrite.Some?)
      && (r.Some? ==>
            var h := synapse.dendrite.value.hotkey;
            (r.value.0 <==> h != Some(selfHotkey) && !(h.Some? && h.value in whitelist))
            && |r.value.1| >= 9
            && r.value.1[..9] == (if r.value.0 then "rejecting" else "accepting"))
  {
    var r := BaseBlacklist(synapse, selfHotkey, whitelist);
    if r.Some? {
      var t := synapse.typeName;
      var h := synapse.dendrite.value.hotkey;
      if h == Some(selfHotkey) {
        assert r.value.1 == "accepting " + (t + " request from self");
      } else if h.Some? && h.value in whitelist {
        assert r.value.1 == "accepting " + (t + " request from whitelist: " + h.value);
      } else {
        assert r.value.1 == "rejecting " + (t + " request from " + HotkeyText(h));
      }
    }
  }

  // ---------------------------------------------------------------- synthetic task batching

  const BATCH_SIZE: nat := 3000
  const MAX_QUERY_CNT_PER_MINER: nat := 50

  /** A synthetic task: the uid it was assigned to (None when no miner had bandwidth) and its coroutine. */
  datatype Pending = Pending(uid: Option<int>, coroutine: nat)

  /** defaultdict(int) lookup. */
  function CountOf(counts: map<Option<int>, nat>, u: Option<int>): nat
  {
    if u in counts then counts[u] else 0
  }

  /** The loop's state: the batched coroutines, the remaining tasks, the per-uid counts, and which tasks were batched. */
  datatype PopState = PopState(batch: seq<nat>, remain: seq<Pending>, counts: map<Option<int>, nat>, taken: seq<bool>)

  /** One step of pop_synthetic_tasks_max_100_per_miner. */
  function PopStep(s: PopState, t: Pending): PopState
  {
    if CountOf(s.counts, t.uid) < MAX_QUERY_CNT_PER_MINER && |s.batch| <= BATCH_SIZE then
      PopState(s.batch + [t.coroutine], s.remain, s.counts[t.uid := CountOf(s.counts, t.uid) + 1], s.taken + [true])
    else
      PopState(s.batch, s.remain + [t], s.counts, s.taken + [false])
  }

  /** pop_synthetic_tasks_max_100_per_miner over the tasks in order. */
  function Pop(tasks: seq<Pending>): PopState
  {
    if tasks == [] then PopState([], [], map[], [])
    else PopStep(Pop(tasks[..|tasks| - 1]), tasks[|tasks| - 1])
  }

  /** The tasks whose flag equals `keep`, in order. */
  function Kept(tasks: seq<Pending>, taken: seq<bool>, keep: bool): (r: seq<Pending>)
    requires |taken| == |tasks|
    ensures |r| <= |tasks|
  {
    if tasks == [] then []
    else
      var k := |tasks| - 1;
      Kept(tasks[..k], taken[..k], keep) + (if taken[k] == keep then [tasks[k]] else [])
  }

  function Coroutines(s: seq<Pending>): (r: seq<nat>)
    ensures |r| == |s|
  {
    if s == [] then [] else Coroutines(s[..|s| - 1]) + [s[|s| - 1].coroutine]
  }

  /** How many of the tasks are assigned to u. */
  function CountUid(s: seq<Pending>, u: Option<int>): nat
  {
    if s == [] then 0 else CountUid(s[..|s| - 1], u) + (if s[|s| - 1].uid == u then 1 else 0)
  }

  /** What Pop keeps true of its state. */
  ghost predicate PopInvariant(tasks: seq<Pending>, s: PopState)
  {
    |s.taken| == |tasks|
    && s.batch == Coroutines(Kept(tasks, s.taken, true))
    && s.remain == Kept(tasks, s.taken, false)
    && (forall u :: CountOf(s.counts, u) == CountUid(Kept(tasks, s.taken, true), u))
    && (forall u :: CountOf(s.counts, u) <= MAX_QUERY_CNT_PER_MINER)
    && |s.batch| <= BATCH_SIZE + 1
  }

  lemma KeptSnoc(tasks: seq<Pending>, taken: seq<bool>, t: Pending, b: bool, keep: bool)
    requires |taken| == |tasks|
    ensures Kept(tasks + [t], taken + [b], keep) == Kept(tasks, taken, keep) + (if b == keep then [t] else [])
  {
    assert (tasks + [t])[..|tasks|] == tasks;
    assert (taken + [b])[..|taken|] == taken;
  }

  lemma PopStepInvariant(tasks: seq<Pending>, s: PopState, t: Pending)
    requires PopInvariant(tasks, s)
    ensures PopInvariant(tasks + [t], PopStep(s, t))
  {
    var r := PopStep(s, t);
    var b := CountOf(s.counts, t.uid) < MAX_QUERY_CNT_PER_MINER && |s.batch| <= BATCH_SIZE;
    assert r.taken == s.taken + [b];
    KeptSnoc(tasks, s.taken, t, b, true);
    KeptSnoc(tasks, s.taken, t, b, false);
    var kept := Kept(tasks, s.taken, true);
    if b {
      CoroutinesSnoc(kept, t);
      forall u ensures CountOf(r.counts, u) == CountUid(kept + [t], u) {
        CountUidSnoc(kept, t, u);
      }
    } else {
      assert kept + [] == kept;
      assert Kept(tasks, s.taken, false) + [t] == r.remain;
    }
  }

  lemma CountUidSnoc(s: seq<Pending>, t: Pending, u: Option<int>)
    ensures CountUid(s + [t], u) == CountUid(s, u) + (if t.uid == u then 1 else 0)
  {
    assert (s + [t])[..|s|] == s;
  }

  lemma {:induction false} PopHolds(tasks: seq<Pending>)
    ensures PopInvariant(tasks, Pop(tasks))
  {
    if tasks != [] {
      var k := |tasks| - 1;
      PopHolds(tasks[..k]);
      assert tasks[..k] + [tasks[k]] == tasks;
      PopStepInvariant(tasks[..k], Pop(tasks[..k]), tasks[k]);
    }
  }

  /**
   * The batching partitions the tasks, keeping their order: the batch is the coroutines
   * of the batched tasks and the remainder the other tasks, together every task once; no
   * uid has more than 50 batched tasks, the batch holds at most 3001, and a non-empty
   * input batches its first task, so the remainder is strictly shorter.
   */
  lemma PopCorrect(tasks: seq<Pending>)
    ensures var r := Pop(tasks);
      |r.taken| == |tasks|
      && r.batch == Coroutines(Kept(tasks, r.taken, true))
      && r.remain == Kept(tasks, r.taken, false)
      && multiset(r.batch) + multiset(Coroutines(r.remain)) == multiset(Coroutines(tasks))
      && |r.batch| + |r.remain| == |tasks|
      && (forall u :: CountUid(Kept(tasks, r.taken, true), u) <= MAX_QUERY_CNT_PER_MINER)
      && |r.batch| <= BATCH_SIZE + 1
      && (tasks != [] ==> r.taken[0] && |r.batch| >= 1 && |r.remain| < |tasks|)
  {
    PopHolds(tasks);
    var r := Pop(tasks);
    forall u ensures CountUid(Kept(tasks, r.taken, true), u) <= MAX_QUERY_CNT_PER_MINER {
      assert CountOf(r.counts, u) == CountUid(Kept(tasks, r.taken, true), u);
    }
    KeptSplit(tasks, r.taken);
    KeptLengths(tasks, r.taken);
    if tasks != [] {
      PopFirst(tasks);
      KeptFirst(tasks, r.taken);
    }
  }

  lemma CoroutinesSnoc(s: seq<Pending>, t: Pending)
    ensures Coroutines(s + [t]) == Coroutines(s) + [t.coroutine]
  {
    assert (s + [t])[..|s|] == s;
  }

  /** The multiset of coroutines of the batched and of the remaining tasks together. */
  ghost function SplitCoroutines(tasks: seq<Pending>, taken: seq<bool>): multiset<nat>
    requires |taken| == |tasks|
  {
    multiset(Coroutines(Kept(tasks, taken, true))) + multiset(Coroutines(Kept(tasks, taken, false)))
  }

  lemma KeptSplitStep(tasks: seq<Pending>, taken: seq<bool>)
    requires |taken| == |tasks| && tasks != []
    ensures var k := |tasks| - 1;
      SplitCoroutines(tasks, taken) == SplitCoroutines(tasks[..k], taken[..k]) + multiset{tasks[k].coroutine}
  {
    var k := |tasks| - 1;
    var t := tasks[k];
    var kt, kf := Kept(tasks[..k], taken[..k], true), Kept(tasks[..k], taken[..k], false);
    var mt, mf := multiset(Coroutines(kt)), multiset(Coroutines(kf));
    assert SplitCoroutines(tasks[..k], taken[..k]) == mt + mf;
    if taken[k] {
      assert Kept(tasks, taken, true) == kt + [t];
      assert Kept(tasks, taken, false) == kf;
      CoroutinesSnoc(kt, t);
      assert multiset(Coroutines(kt + [t])) == mt + multiset{t.coroutine};
    } else {
      assert Kept(tasks, taken, true) == kt;
      assert Kept(tasks, taken, false) == kf + [t];
      CoroutinesSnoc(kf, t);
      assert multiset(Coroutines(kf + [t])) == mf + multiset{t.coroutine};
    }
  }

  /** Batched and remaining tasks together are the tasks. */
  lemma {:induction false} KeptSplit(tasks: seq<Pending>, taken: seq<bool>)
    requires |taken| == |tasks|
    ensures SplitCoroutines(tasks, taken) == multiset(Coroutines(tasks))
  {
    if tasks != [] {
      var k := |tasks| - 1;
      KeptSplit(tasks[..k], taken[..k]);
      KeptSplitStep(tasks, taken);
    }
  }

  lemma {:induction false} PopTakenLength(tasks: seq<Pending>)
    ensures |Pop(tasks).taken| == |tasks|
  {
    if tasks != [] {
      PopTakenLength(tasks[..|tasks| - 1]);
    }
  }

  /** Pop's flags for a list extend those for the list without its last task. */
  lemma PopTakenExtends(tasks: seq<Pending>)
    requires tasks != []
    ensures |Pop(tasks).taken| == |tasks|
    ensures Pop(tasks).taken[..|tasks| - 1] == Pop(tasks[..|tasks| - 1]).taken
  {
    var k := |tasks| - 1;
    PopTakenLength(tasks);
    PopTakenLength(tasks[..k]);
    var s := Pop(tasks[..k]);
    assert Pop(tasks).taken == s.taken + [Pop(tasks).taken[k]];
  }

  /** Pop of a longer list extends the flags of the shorter. */
  lemma {:induction false} PopPrefix(tasks: seq<Pending>, i: nat)
    requires i <= |tasks|
    ensures |Pop(tasks).taken| == |tasks| && |Pop(tasks[..i]).taken| == i
    ensures Pop(tasks[..i]).taken == Pop(tasks).taken[..i]
  {
    PopTakenLength(tasks);
    PopTakenLength(tasks[..i]);
    if i < |tasks| {
      var k := |tasks| - 1;
      var init := tasks[..k];
      PopPrefix(init, i);
      PopTakenExtends(tasks);
      PrefixOfPrefix(tasks, k, i);
      PrefixOfPrefix(Pop(tasks).taken, k, i);
    } else {
      assert tasks[..i] == tasks;
    }
  }

  /** The first task is always batched. */
  lemma PopFirst(tasks: seq<Pending>)
    requires tasks != []
    ensures |Pop(tasks).taken| == |tasks| && Pop(tasks).taken[0]
  {
    PopPrefix(tasks, 1);
    assert tasks[..1][..0] == [];
  }

  lemma KeptFirst(tasks: seq<Pending>, taken: seq<bool>)
    requires |taken| == |tasks| && tasks != [] && taken[0]
    ensures |Kept(tasks, taken, true)| >= 1
  {
    KeptGrows(tasks, taken, 1);
    assert tasks[..1][..0] == [] && taken[..1][..0] == [];
  }

  lemma {:induction false} KeptGrows(tasks: seq<Pending>, taken: seq<bool>, i: nat)
    requires |taken| == |tasks| && i <= |tasks|
    ensures |Kept(tasks[..i], taken[..i], true)| <= |Kept(tasks, taken, true)|
    decreases |tasks| - i
  {
    if i < |tasks| {
      KeptGrows(tasks, taken, i + 1);
      assert tasks[..i + 1][..i] == tasks[..i] && taken[..i + 1][..i] == taken[..i];
    } else {
      assert tasks[..i] == tasks && taken[..i] == taken;
    }
  }

  lemma {:induction false} KeptLengths(tasks: seq<Pending>, taken: seq<bool>)
    requires |taken| == |tasks|
    ensures |Kept(tasks, taken, true)| + |Kept(tasks, taken, false)| == |tasks|
  {
    if tasks != [] {
      KeptLengths(tasks[..|tasks| - 1], taken[..|tasks| - 1]);
    }
  }

  /**
   * The decision for each task, stated without the loop: a task is batched exactly when
   * fewer than 50 earlier tasks of its uid were batched and at most 3000 earlier tasks were.
   */
  lemma PopDecision(tasks: seq<Pending>, i: nat)
    requires i < |tasks|
    ensures var taken := Pop(tasks).taken;
      |taken| == |tasks|
      && (taken[i] <==>
            CountUid(Kept(tasks[..i], taken[..i], true), tasks[i].uid) < MAX_QUERY_CNT_PER_MINER
            && |Kept(tasks[..i], taken[..i], true)| <= BATCH_SIZE)
  {
    PopPrefix(tasks, i);
    PopPrefix(tasks, i + 1);
    var s := Pop(tasks[..i]);
    PopHolds(tasks[..i]);
    assert tasks[..i + 1][..i] == tasks[..i];
    assert Pop(tasks[..i + 1]) == PopStep(s, tasks[i]);
    assert |s.batch| == |Kept(tasks[..i], s.taken, true)|;
  }

  /** The batching loop, with its uid counts in a dictionary. */
  method PopSyntheticTasks(syntheticTasks: seq<Pending>) returns (batchTasks: seq<nat>, remainTasks: seq<Pending>)
    ensures batchTasks == Pop(syntheticTasks).batch && remainTasks == Pop(syntheticTasks).remain
  {
    batchTasks, remainTasks := [], [];
    var uidToTaskCnt: map<Option<int>, nat> := map[];
    ghost var taken: seq<bool> := [];
    for k := 0 to |syntheticTasks|
      invariant PopState(batchTasks, remainTasks, uidToTaskCnt, taken) == Pop(syntheticTasks[..k])
    {
      assert syntheticTasks[..k + 1][..k] == syntheticTasks[..k];
      var task := syntheticTasks[k];
      var count := if task.uid in uidToTaskCnt then uidToTaskCnt[task.uid] else 0;
      if count < MAX_QUERY_CNT_PER_MINER {
        if |batchTasks| > BATCH_SIZE {
          remainTasks := remainTasks + [task];
          taken := taken + [false];
          continue;
        }
        batchTasks := batchTasks + [task.coroutine];
        uidToTaskCnt := uidToTaskCnt[task.uid := count + 1];
        taken := taken + [true];
        continue;
      } else {
        remainTasks := remainTasks + [task];
        taken := taken + [false];
        continue;
      }
    }
    assert syntheticTasks[..|syntheticTasks|] == syntheticTasks;
  }

  /** The facts about one Pop that the batch loop needs. */
  lemma PopSplits(tasks: seq<Pending>)
    ensures var r := Pop(tasks);
      multiset(r.batch) + multiset(Coroutines(r.remain)) == multiset(Coroutines(tasks))
      && |r.batch| + |r.remain| == |tasks| && |r.batch| <= BATCH_SIZE + 1
      && (tasks != [] ==> |r.batch| >= 1)
  {
    PopCorrect(tasks);
  }

  lemma FlattenSnoc(batches: seq<seq<nat>>, b: seq<nat>)
    ensures Flatten(batches + [b]) == Flatten(batches) + b
  {
    assert (batches + [b])[..|batches|] == batches;
  }

  /** Every task coroutine accounted for: dispatched, in the current batch, or remaining. */
  ghost function Accounted(batches: seq<seq<nat>>, batch: seq<nat>, remain: seq<Pending>): multiset<nat>
  {
    multiset(Flatten(batches)) + multiset(batch) + multiset(Coroutines(remain))
  }

  /** Dispatching a batch and popping the next one from the remainder loses and adds nothing. */
  lemma AccountedStep(batches: seq<seq<nat>>, batch: seq<nat>, remain: seq<Pending>)
    ensures Accounted(batches + [batch], Pop(remain).batch, Pop(remain).remain) == Accounted(batches, batch, remain)
  {
    FlattenSnoc(batches, batch);
    PopSplits(remain);
  }

  function Flatten(batches: seq<seq<nat>>): seq<nat>
  {
    if batches == [] then [] else Flatten(batches[..|batches| - 1]) + batches[|batches| - 1]
  }

  /** Every batch is non-empty and within the batch limit. */
  predicate BatchesWithinLimits(batches: seq<seq<nat>>)
  {
    forall k :: 0 <= k < |batches| ==> 1 <= |batches[k]| <= BATCH_SIZE + 1
  }

  /** One round of the batch loop: the current batch is dispatched and the next one popped. */
  method DispatchNext(batches: seq<seq<nat>>, batch: seq<nat>, remain: seq<Pending>)
    returns (batches': seq<seq<nat>>, batch': seq<nat>, remain': seq<Pending>)
    requires BatchesWithinLimits(batches) && 1 <= |batch| <= BATCH_SIZE + 1
    ensures BatchesWithinLimits(batches') && |batch'| <= BATCH_SIZE + 1
    ensures Accounted(batches', batch', remain') == Accounted(batches, batch, remain)
    ensures |batch'| + |remain'| == |remain| && (batch' == [] ==> remain' == [])
  {
    AccountedStep(batches, batch, remain);
    batches' := batches + [batch];
    batch', remain' := PopSyntheticTasks(remain);
    PopSplits(remain);
  }

  /**
   * The batch loop of one synthetic cycle: batches are popped until one comes out empty.
   * It ends, every batch is non-empty and within the limits, and every task is dispatched
   * in exactly one batch.
   */
  method DispatchBatches(syntheticTasks: seq<Pending>) returns (batches: seq<seq<nat>>)
    ensures forall k :: 0 <= k < |batches| ==> 1 <= |batches[k]| <= BATCH_SIZE + 1
    ensures multiset(Flatten(batches)) == multiset(Coroutines(syntheticTasks))
  {
    batches := [];
    var batchedTasks, remainTasks := PopSyntheticTasks(syntheticTasks);
    PopSplits(syntheticTasks);
    assert Flatten(batches) == [];
    while batchedTasks != []
      invariant BatchesWithinLimits(batches) && |batchedTasks| <= BATCH_SIZE + 1
      invariant Accounted(batches, batchedTasks, remainTasks) == multiset(Coroutines(syntheticTasks))
      invariant batchedTasks == [] ==> remainTasks == []
      decreases |batchedTasks| + |remainTasks|
    {
      batches, batchedTasks, remainTasks := DispatchNext(batches, batchedTasks, remainTasks);
    }
  }
}
