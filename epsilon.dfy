/**
 * The epsilon selector: the uids that receive the token weight 1 next to the burn uid, so
 * that the weight vector meets the network's minimum number of non-zero entries.
 *
 * Deterministic: the validator seeds the list with itself, then walks the validator
 * candidates (sorted by stake, highest first) circularly from a rotation point derived from
 * its own position, then falls back to every other neuron in list order.
 *
 * The functions below are the specification; `SelectEpsilonUids` is the loop-based
 * selection of burn_subnet.py, proved equal to `Epsilon`.
 */
module EpsilonSelector {
  import opened Common
  import opened Chain

  /** How many epsilon uids are wanted: min_allowed_weights - 1, never negative. */
  function EpsilonTarget(minAllowedWeights: int): nat
  {
    if minAllowedWeights - 1 > 0 then minAllowedWeights - 1 else 0
  }

  /** A neuron is a validator candidate when it is flagged as a validator or holds a permit. */
  predicate IsValidatorCandidate(n: Neuron)
  {
    n.isValidator || n.validatorPermit
  }

  /** The validator candidates, in list order. */
  function ValidatorCandidates(neurons: seq<Neuron>): seq<Neuron>
  {
    if neurons == [] then []
    else if IsValidatorCandidate(neurons[0]) then [neurons[0]] + ValidatorCandidates(neurons[1..])
    else ValidatorCandidates(neurons[1..])
  }

  /** The candidate filter keeps exactly the validators and permit holders. */
  lemma {:induction false} ValidatorCandidatesMembers(neurons: seq<Neuron>)
    ensures forall n :: n in ValidatorCandidates(neurons) <==> n in neurons && IsValidatorCandidate(n)
  {
    if neurons != [] {
      ValidatorCandidatesMembers(neurons[1..]);
      assert neurons == [neurons[0]] + neurons[1..];
    }
  }

  /** Stakes never increase along the sequence. */
  predicate StakeDescending(s: seq<Neuron>)
  {
    forall i, j :: 0 <= i < j < |s| ==> s[i].stake >= s[j].stake
  }

  /** Insert `x` into a stake-descending list after every entry whose stake is at least x's. */
  function InsertByStake(x: Neuron, s: seq<Neuron>): seq<Neuron>
  {
    if s == [] then [x]
    else if s[0].stake >= x.stake then [s[0]] + InsertByStake(x, s[1..])
    else [x] + s
  }

  /**
   * Python's stable `sort(key=stake, reverse=True)`: each later neuron is placed after every
   * neuron of equal or higher stake, so neurons of equal stake keep their list order.
   */
  function SortByStake(s: seq<Neuron>): seq<Neuron>
  {
    if s == [] then [] else InsertByStake(s[|s| - 1], SortByStake(s[..|s| - 1]))
  }

  /** Insertion adds exactly one entry. */
  lemma {:induction false} InsertByStakePermutes(x: Neuron, s: seq<Neuron>)
    ensures multiset(InsertByStake(x, s)) == multiset(s) + multiset{x}
  {
    if s != [] && s[0].stake >= x.stake {
      InsertByStakePermutes(x, s[1..]);
      assert s == [s[0]] + s[1..];
    }
  }

  /** Insertion keeps a stake-descending list stake-descending. */
  lemma {:induction false} InsertByStakeSorted(x: Neuron, s: seq<Neuron>)
    requires StakeDescending(s)
    ensures StakeDescending(InsertByStake(x, s))
  {
    if s != [] && s[0].stake >= x.stake {
      var tail := InsertByStake(x, s[1..]);
      InsertByStakeSorted(x, s[1..]);
      InsertByStakePermutes(x, s[1..]);
      forall k | 0 <= k < |tail|
        ensures s[0].stake >= tail[k].stake
      {
        assert tail[k] in multiset(tail);
        if tail[k] != x {
          assert tail[k] in multiset(s[1..]);
          var m :| 0 <= m < |s[1..]| && s[1..][m] == tail[k];
          assert s[m + 1] == tail[k];
        }
      }
    }
  }

  /** The neurons of `s` whose stake is `st`, in list order. */
  function WithStake(s: seq<Neuron>, st: real): seq<Neuron>
  {
    if s == [] then []
    else (if s[0].stake == st then [s[0]] else []) + WithStake(s[1..], st)
  }

  /** Selecting by stake distributes over concatenation. */
  lemma {:induction false} WithStakeAppend(a: seq<Neuron>, b: seq<Neuron>, st: real)
    ensures WithStake(a + b, st) == WithStake(a, st) + WithStake(b, st)
  {
    if a == [] {
      assert a + b == b;
    } else {
      WithStakeAppend(a[1..], b, st);
      assert (a + b)[0] == a[0] && (a + b)[1..] == a[1..] + b;
    }
  }

  /** A list holding no neuron of stake `st` selects nothing. */
  lemma {:induction false} WithStakeNone(s: seq<Neuron>, st: real)
    requires forall k :: 0 <= k < |s| ==> s[k].stake != st
    ensures WithStake(s, st) == []
  {
    if s != [] {
      WithStakeNone(s[1..], st);
    }
  }

  /** Dropping the first neuron keeps a list stake-descending. */
  lemma StakeDescendingTail(s: seq<Neuron>)
    requires s != [] && StakeDescending(s)
    ensures StakeDescending(s[1..])
    ensures forall k :: 0 <= k < |s| ==> s[k].stake <= s[0].stake
  {
    forall i, j | 0 <= i < j < |s[1..]|
      ensures s[1..][i].stake >= s[1..][j].stake
    {
      assert s[1..][i] == s[i + 1] && s[1..][j] == s[j + 1];
    }
  }

  /**
   * Insertion is stable: among the neurons of any one stake, `x` lands after every one
   * already in the list, and their order is kept.
   */
  lemma {:induction false} InsertByStakeStable(x: Neuron, s: seq<Neuron>, st: real)
    requires StakeDescending(s)
    ensures WithStake(InsertByStake(x, s), st) == WithStake(s, st) + (if x.stake == st then [x] else [])
  {
    var xs: seq<Neuron> := if x.stake == st then [x] else [];
    var r := InsertByStake(x, s);
    if s == [] {
      assert r == [x] && r[1..] == [];
    } else {
      StakeDescendingTail(s);
      if s[0].stake >= x.stake {
        var hd: seq<Neuron> := if s[0].stake == st then [s[0]] else [];
        InsertByStakeStable(x, s[1..], st);
        assert r[0] == s[0] && r[1..] == InsertByStake(x, s[1..]);
        assert WithStake(r, st) == hd + WithStake(r[1..], st);
        assert WithStake(s, st) == hd + WithStake(s[1..], st);
      } else {
        assert r[0] == x && r[1..] == s;
        assert WithStake(r, st) == xs + WithStake(s, st);
        if x.stake == st {
          WithStakeNone(s, st);
        }
      }
    }
  }

  /** The sort is a stake-descending permutation of its input. */
  lemma {:induction false} SortByStakeCorrect(s: seq<Neuron>)
    ensures multiset(SortByStake(s)) == multiset(s)
    ensures StakeDescending(SortByStake(s))
  {
    if s != [] {
      SortByStakeCorrect(s[..|s| - 1]);
      InsertByStakePermutes(s[|s| - 1], SortByStake(s[..|s| - 1]));
      InsertByStakeSorted(s[|s| - 1], SortByStake(s[..|s| - 1]));
      assert s == s[..|s| - 1] + [s[|s| - 1]];
    }
  }

  /** The sort keeps the order of the neurons of any one stake, as a stable sort does. */
  lemma {:induction false} SortByStakeStable(s: seq<Neuron>, st: real)
    ensures WithStake(SortByStake(s), st) == WithStake(s, st)
  {
    if s != [] {
      var init, last := s[..|s| - 1], s[|s| - 1];
      var xs: seq<Neuron> := if last.stake == st then [last] else [];
      assert WithStake(SortByStake(s), st) == WithStake(init, st) + xs by {
        var sorted := SortByStake(init);
        assert SortByStake(s) == InsertByStake(last, sorted);
        SortByStakeStable(init, st);
        SortByStakeCorrect(init);
        InsertByStakeStable(last, sorted, st);
      }
      assert WithStake(s, st) == WithStake(init, st) + xs by {
        assert [last][1..] == [];
        assert WithStake([last], st) == xs;
        WithStakeAppend(init, [last], st);
        assert init + [last] == s;
      }
    }
  }

  /**
   * The ordered candidate uids: the uids of `s` in order, skipping a missing uid and the
   * burn uid, each uid kept at its first occurrence only.
   */
  function CandidateUids(s: seq<Neuron>, burn: Option<Uid>): seq<Uid>
  {
    if s == [] then []
    else
      var prev := CandidateUids(s[..|s| - 1], burn);
      var u := s[|s| - 1].uid;
      if u.None? || u == burn || u.value in prev then prev else prev + [u.value]
  }

  /** The ordered candidates are exactly the usable uids of `s`, each once. */
  lemma {:induction false} CandidateUidsMembers(s: seq<Neuron>, burn: Option<Uid>)
    ensures NoDup(CandidateUids(s, burn))
    ensures forall u :: u in CandidateUids(s, burn) <==> Some(u) != burn && exists n :: n in s && n.uid == Some(u)
  {
    if s != [] {
      var init := s[..|s| - 1];
      CandidateUidsMembers(init, burn);
      assert forall n :: n in s <==> n in init || n == s[|s| - 1];
    }
  }

  /** The ordered candidates of select_epsilon_uids. */
  function OrderedCandidates(neurons: seq<Neuron>, burn: Option<Uid>): seq<Uid>
  {
    CandidateUids(SortByStake(ValidatorCandidates(neurons)), burn)
  }

  /** `my_index or 0`: the position of this validator's uid among the candidates, else 0. */
  function MyIndex(ordered: seq<Uid>, thisUid: Option<Uid>): nat
  {
    if thisUid.Some? && thisUid.value in ordered then IndexOf(ordered, thisUid.value) else 0
  }

  /** A uid that is already selected or is the burn uid is excluded. */
  predicate Taken(u: Uid, eps: seq<Uid>, burn: Option<Uid>)
  {
    u in eps || burn == Some(u)
  }

  /** The candidate the walk looks at for offset `o`: index (start + o) mod candidate_count. */
  function Visited(ordered: seq<Uid>, start: nat, o: nat): Uid
    requires |ordered| > 0
  {
    ordered[Mod(start + o, |ordered|)]
  }

  /** The circular walk over the candidates from `start`, at most two passes, stopping at the target. */
  function WalkFrom(ordered: seq<Uid>, start: nat, offset: nat, eps: seq<Uid>, target: nat,
                    burn: Option<Uid>): seq<Uid>
    requires |ordered| > 0
    decreases 2 * |ordered| - offset
  {
    if |eps| < target && offset < 2 * |ordered| then
      var u := Visited(ordered, start, offset);
      WalkFrom(ordered, start, offset + 1, if Taken(u, eps, burn) then eps else eps + [u], target, burn)
    else eps
  }

  /**
   * The walk only appends candidates that are not yet taken: it extends `eps`, keeps it
   * duplicate-free and free of the burn uid, and does not overshoot the target.
   */
  lemma {:induction false} WalkFromExtends(ordered: seq<Uid>, start: nat, offset: nat, eps: seq<Uid>,
                                           target: nat, burn: Option<Uid>)
    requires |ordered| > 0
    ensures var r := WalkFrom(ordered, start, offset, eps, target, burn);
      eps <= r
      && (|eps| <= target ==> |r| <= target)
      && (NoDup(eps) ==> NoDup(r))
      && forall u :: u in r ==> u in eps || (u in ordered && burn != Some(u))
    decreases 2 * |ordered| - offset
  {
    if |eps| < target && offset < 2 * |ordered| {
      var u := Visited(ordered, start, offset);
      WalkFromExtends(ordered, start, offset + 1, if Taken(u, eps, burn) then eps else eps + [u], target, burn);
    }
  }

  /** The linear fallback over all neurons from position `k`, stopping once the target is met. */
  function FillFrom(neurons: seq<Neuron>, k: nat, eps: seq<Uid>, target: nat, burn: Option<Uid>): seq<Uid>
    decreases |neurons| - k
  {
    if k >= |neurons| then eps
    else
      var u := neurons[k].uid;
      if u.None? || Taken(u.value, eps, burn) then FillFrom(neurons, k + 1, eps, target, burn)
      else if |eps| + 1 >= target then eps + [u.value]
      else FillFrom(neurons, k + 1, eps + [u.value], target, burn)
  }

  /**
   * The fallback only appends neuron uids that are not yet taken: it extends `eps`, keeps it
   * duplicate-free and free of the burn uid, and does not overshoot the target.
   */
  lemma {:induction false} FillFromExtends(neurons: seq<Neuron>, k: nat, eps: seq<Uid>, target: nat,
                                           burn: Option<Uid>)
    ensures var r := FillFrom(neurons, k, eps, target, burn);
      eps <= r
      && (|eps| < target ==> |r| <= target)
      && (NoDup(eps) ==> NoDup(r))
      && forall u :: u in r ==> u in eps || (burn != Some(u) && exists n :: n in neurons && n.uid == Some(u))
    decreases |neurons| - k
  {
    if k < |neurons| {
      var u := neurons[k].uid;
      if u.None? || Taken(u.value, eps, burn) {
        FillFromExtends(neurons, k + 1, eps, target, burn);
      } else if |eps| + 1 < target {
        FillFromExtends(neurons, k + 1, eps + [u.value], target, burn);
      }
    }
  }

  /** The seed: this validator's own uid unless it is missing or is the burn uid. */
  function Seed(thisUid: Option<Uid>, burn: Option<Uid>): seq<Uid>
  {
    if thisUid.Some? && thisUid != burn then [thisUid.value] else []
  }

  /** The rotation point `(my_index * remaining_required) mod candidate_count`. */
  function StartIndex(ordered: seq<Uid>, thisUid: Option<Uid>, remaining: nat): nat
    requires |ordered| > 0
  {
    Mod(Product(MyIndex(ordered, thisUid), remaining), |ordered|)
  }

  /** The epsilon uids select_epsilon_uids returns. */
  function Epsilon(neurons: seq<Neuron>, thisUid: Option<Uid>, burn: Option<Uid>, minAllowedWeights: int): seq<Uid>
  {
    var target := EpsilonTarget(minAllowedWeights);
    var seed := Seed(thisUid, burn);
    if target == 0 then []
    else if target <= |seed| then seed
    else
      var ordered := OrderedCandidates(neurons, burn);
      if ordered == [] then seed
      else
        WalkThenFill(neurons, ordered, StartIndex(ordered, thisUid, target - |seed|), seed, target, burn)
  }

  /** The candidate walk from `start`, followed by the linear fallback if the target is still not met. */
  function WalkThenFill(neurons: seq<Neuron>, ordered: seq<Uid>, start: nat, seed: seq<Uid>, target: nat,
                        burn: Option<Uid>): seq<Uid>
    requires |ordered| > 0
  {
    var walked := WalkFrom(ordered, start, 0, seed, target, burn);
    if |walked| < target then FillFrom(neurons, 0, walked, target, burn) else walked
  }

  /** Epsilon once the seed leaves room and some candidate exists: the walk and the fallback. */
  lemma EpsilonStaged(neurons: seq<Neuron>, thisUid: Option<Uid>, burn: Option<Uid>, minAllowedWeights: int)
    requires EpsilonTarget(minAllowedWeights) > |Seed(thisUid, burn)|
    requires OrderedCandidates(neurons, burn) != []
    ensures var ordered := OrderedCandidates(neurons, burn);
      var seed := Seed(thisUid, burn);
      var target := EpsilonTarget(minAllowedWeights);
      Epsilon(neurons, thisUid, burn, minAllowedWeights)
      == WalkThenFill(neurons, ordered, StartIndex(ordered, thisUid, target - |seed|), seed, target, burn)
  {
  }

  /** EpsilonStaged with the stages' inputs named, as the selection computes them. */
  lemma EpsilonAt(neurons: seq<Neuron>, thisUid: Option<Uid>, burn: Option<Uid>, minAllowedWeights: int,
                  ordered: seq<Uid>, start: nat, seed: seq<Uid>, target: nat)
    requires target == EpsilonTarget(minAllowedWeights) && seed == Seed(thisUid, burn) && target > |seed|
    requires ordered == OrderedCandidates(neurons, burn) && |ordered| > 0
    requires start == StartIndex(ordered, thisUid, target - |seed|)
    ensures Epsilon(neurons, thisUid, burn, minAllowedWeights) == WalkThenFill(neurons, ordered, start, seed, target, burn)
  {
    EpsilonStaged(neurons, thisUid, burn, minAllowedWeights);
  }

  /** Every uid an epsilon list may draw from: this validator's uid and every neuron uid, minus the burn uid. */
  function Supply(neurons: seq<Neuron>, thisUid: Option<Uid>, burn: Option<Uid>): set<Uid>
  {
    Elems(Seed(thisUid, burn)) + set n | n in neurons && n.uid.Some? && n.uid != burn :: n.uid.value
  }

  /**
   * The first loop of select_epsilon_uids: the ordered candidate uids of the sorted
   * candidates and `my_index`, the position at which this validator's uid was first added.
   */
  method CollectCandidates(candidates: seq<Neuron>, thisUid: Option<Uid>, burnUid: Option<Uid>)
    returns (ordered: seq<Uid>, myIndex: Option<nat>)
    ensures ordered == CandidateUids(candidates, burnUid)
    ensures (if myIndex.Some? then myIndex.value else 0) == MyIndex(ordered, thisUid)
  {
    ordered := [];
    myIndex := None;
    var i := 0;
    while i < |candidates|
      invariant 0 <= i <= |candidates|
      invariant ordered == CandidateUids(candidates[..i], burnUid)
      invariant NoDup(ordered)
      invariant myIndex.Some? <==> thisUid.Some? && thisUid.value in ordered
      invariant myIndex.Some? ==> myIndex.value < |ordered| && Some(ordered[myIndex.value]) == thisUid
    {
      assert candidates[..i + 1][..i] == candidates[..i];
      var candidateUid := candidates[i].uid;
      if candidateUid.Some? && candidateUid != burnUid {
        if candidateUid.value !in ordered {
          ordered := ordered + [candidateUid.value];
        }
        if candidateUid == thisUid && myIndex.None? {
          myIndex := Some(|ordered| - 1);
        }
      }
      i := i + 1;
    }
    assert candidates[..i] == candidates;
  }

  /** The second loop: walk the candidates circularly from `startIndex`, at most two passes. */
  method WalkCandidates(ordered: seq<Uid>, startIndex: nat, epsilonTarget: nat, burnUid: Option<Uid>,
                        seed: seq<Uid>, excludedIn: set<Option<Uid>>)
    returns (epsilonUids: seq<Uid>, excluded: set<Option<Uid>>)
    requires |ordered| > 0
    requires forall u :: u in excludedIn <==> u == burnUid || (u.Some? && u.value in seed)
    ensures epsilonUids == WalkFrom(ordered, startIndex, 0, seed, epsilonTarget, burnUid)
    ensures forall u :: u in excluded <==> u == burnUid || (u.Some? && u.value in epsilonUids)
  {
    epsilonUids, excluded := seed, excludedIn;
    var candidateCount := |ordered|;
    var offset := 0;
    while |epsilonUids| < epsilonTarget && offset < candidateCount * 2
      invariant 0 <= offset <= 2 * candidateCount
      invariant forall u :: u in excluded <==> u == burnUid || (u.Some? && u.value in epsilonUids)
      invariant WalkFrom(ordered, startIndex, offset, epsilonUids, epsilonTarget, burnUid)
             == WalkFrom(ordered, startIndex, 0, seed, epsilonTarget, burnUid)
      decreases 2 * candidateCount - offset
    {
      var idx := (startIndex + offset) % candidateCount;
      var candidateUid := ordered[idx];
      ModIsRemainder(startIndex + offset, candidateCount);
      assert candidateUid == Visited(ordered, startIndex, offset);
      assert (Some(candidateUid) in excluded) == Taken(candidateUid, epsilonUids, burnUid);
      if Some(candidateUid) !in excluded {
        epsilonUids := epsilonUids + [candidateUid];
        excluded := excluded + {Some(candidateUid)};
      }
      offset := offset + 1;
    }
  }

  /** The third loop: take the remaining neuron uids in list order until the target is met. */
  method FillFromNeurons(neurons: seq<Neuron>, epsilonTarget: nat, burnUid: Option<Uid>,
                         walked: seq<Uid>, excludedIn: set<Option<Uid>>)
    returns (epsilonUids: seq<Uid>)
    requires |walked| < epsilonTarget
    requires forall u :: u in excludedIn <==> u == burnUid || (u.Some? && u.value in walked)
    ensures epsilonUids == FillFrom(neurons, 0, walked, epsilonTarget, burnUid)
  {
    epsilonUids := walked;
    var excluded := excludedIn;
    var k := 0;
    while k < |neurons|
      invariant 0 <= k <= |neurons|
      invariant |epsilonUids| < epsilonTarget
      invariant forall u :: u in excluded <==> u == burnUid || (u.Some? && u.value in epsilonUids)
      invariant FillFrom(neurons, k, epsilonUids, epsilonTarget, burnUid)
             == FillFrom(neurons, 0, walked, epsilonTarget, burnUid)
    {
      var candidateUid := neurons[k].uid;
      if candidateUid.None? || candidateUid in excluded || candidateUid == burnUid {
        k := k + 1;
      } else {
        epsilonUids := epsilonUids + [candidateUid.value];
        excluded := excluded + {candidateUid};
        if |epsilonUids| >= epsilonTarget {
          return;
        }
        k := k + 1;
      }
    }
  }

  /** The rotation point `(a * b) % c` as select_epsilon_uids computes it. */
  method RotationPoint(a: nat, b: nat, c: nat) returns (r: nat)
    requires c > 0
    ensures r == Mod(Product(a, b), c)
  {
    r := (a * b) % c;
    ProductIsMul(a, b);
    ModIsRemainder(a * b, c);
  }

  /** select_epsilon_uids: seed, candidate walk, linear fallback. */
  method SelectEpsilonUids(neurons: seq<Neuron>, thisUid: Option<Uid>, burnUid: Option<Uid>,
                           minAllowedWeights: int) returns (epsilonUids: seq<Uid>)
    ensures epsilonUids == Epsilon(neurons, thisUid, burnUid, minAllowedWeights)
  {
    var epsilonTarget := if minAllowedWeights - 1 > 0 then minAllowedWeights - 1 else 0;
    assert epsilonTarget == EpsilonTarget(minAllowedWeights);
    if epsilonTarget <= 0 {
      return [];
    }
    epsilonUids := [];
    var excluded: set<Option<Uid>> := {burnUid};
    if thisUid.Some? && thisUid != burnUid {
      epsilonUids := epsilonUids + [thisUid.value];
      excluded := excluded + {thisUid};
    }
    var remainingRequired := epsilonTarget - |epsilonUids|;
    assert epsilonUids == Seed(thisUid, burnUid);
    if remainingRequired <= 0 {
      assert epsilonUids == Epsilon(neurons, thisUid, burnUid, minAllowedWeights);
      return;
    }
    epsilonUids := ExtendSeed(neurons, thisUid, burnUid, minAllowedWeights, epsilonTarget, epsilonUids, excluded);
  }

  /** Once the seed leaves room: order the candidates, then walk from the rotation point and fill. */
  method ExtendSeed(neurons: seq<Neuron>, thisUid: Option<Uid>, burnUid: Option<Uid>, minAllowedWeights: int,
                    epsilonTarget: nat, seed: seq<Uid>, excluded: set<Option<Uid>>)
    returns (epsilonUids: seq<Uid>)
    requires epsilonTarget == EpsilonTarget(minAllowedWeights) && seed == Seed(thisUid, burnUid)
    requires epsilonTarget > |seed|
    requires forall u :: u in excluded <==> u == burnUid || (u.Some? && u.value in seed)
    ensures epsilonUids == Epsilon(neurons, thisUid, burnUid, minAllowedWeights)
  {
    var candidates := SortByStake(ValidatorCandidates(neurons));
    var ordered, myIndex := CollectCandidates(candidates, thisUid, burnUid);
    if |ordered| == 0 {
      return seed;
    }
    var startIndex := RotationPoint(if myIndex.Some? then myIndex.value else 0, epsilonTarget - |seed|, |ordered|);
    EpsilonAt(neurons, thisUid, burnUid, minAllowedWeights, ordered, startIndex, seed, epsilonTarget);
    epsilonUids := WalkThenFillLoops(neurons, ordered, startIndex, epsilonTarget, burnUid, seed, excluded);
  }

  /** The walk over the candidates, then the fallback over all neurons when still short. */
  method WalkThenFillLoops(neurons: seq<Neuron>, ordered: seq<Uid>, startIndex: nat, epsilonTarget: nat,
                           burnUid: Option<Uid>, seed: seq<Uid>, excludedIn: set<Option<Uid>>)
    returns (epsilonUids: seq<Uid>)
    requires |ordered| > 0
    requires forall u :: u in excludedIn <==> u == burnUid || (u.Some? && u.value in seed)
    ensures epsilonUids == WalkThenFill(neurons, ordered, startIndex, seed, epsilonTarget, burnUid)
  {
    var excluded;
    epsilonUids, excluded := WalkCandidates(ordered, startIndex, epsilonTarget, burnUid, seed, excludedIn);
    if |epsilonUids| < epsilonTarget {
      epsilonUids := FillFromNeurons(neurons, epsilonTarget, burnUid, epsilonUids, excluded);
    }
  }

  /** Unless the walk reaches the target, it takes every candidate it visits from `offset` on. */
  lemma {:induction false} WalkCovers(ordered: seq<Uid>, start: nat, offset: nat, eps: seq<Uid>,
                                      target: nat, burn: Option<Uid>, o: nat)
    requires |ordered| > 0 && offset <= o < 2 * |ordered|
    requires forall u :: u in ordered ==> burn != Some(u)
    ensures var r := WalkFrom(ordered, start, offset, eps, target, burn);
      |r| >= target || Visited(ordered, start, o) in r
    decreases 2 * |ordered| - offset
  {
    if |eps| < target {
      var u := Visited(ordered, start, offset);
      var next := if Taken(u, eps, burn) then eps else eps + [u];
      if o > offset {
        WalkCovers(ordered, start, offset + 1, next, target, burn, o);
      } else {
        assert u in next;
        WalkFromExtends(ordered, start, offset + 1, next, target, burn);
      }
    }
  }

  /** Unless the fallback reaches the target, it takes every usable neuron uid from `k` on. */
  lemma {:induction false} FillCovers(neurons: seq<Neuron>, k: nat, eps: seq<Uid>, target: nat,
                                      burn: Option<Uid>, j: nat)
    requires k <= j < |neurons| && neurons[j].uid.Some? && neurons[j].uid != burn
    requires |eps| < target
    ensures var r := FillFrom(neurons, k, eps, target, burn);
      |r| >= target || neurons[j].uid.value in r
    decreases |neurons| - k
  {
    var u := neurons[k].uid;
    if u.None? || Taken(u.value, eps, burn) {
      if j > k {
        FillCovers(neurons, k + 1, eps, target, burn, j);
      } else {
        FillFromExtends(neurons, k + 1, eps, target, burn);
      }
    } else if |eps| + 1 < target {
      if j > k {
        FillCovers(neurons, k + 1, eps + [u.value], target, burn, j);
      } else {
        assert u.value in eps + [u.value];
        FillFromExtends(neurons, k + 1, eps + [u.value], target, burn);
      }
    }
  }

  /** Every candidate index is visited by one of the first |ordered| offsets of the walk. */
  lemma WalkVisits(c: nat, start: nat, i: nat) returns (o: nat)
    requires 0 <= i < c && start < c
    ensures o < c && Mod(start + o, c) == i
  {
    if i >= start {
      o := i - start;
    } else {
      o := i + c - start;
      assert Mod(start + o, c) == Mod(i, c);
    }
  }

  /** Every ordered candidate is a usable neuron uid. */
  lemma OrderedInSupply(neurons: seq<Neuron>, thisUid: Option<Uid>, burn: Option<Uid>)
    ensures forall u :: u in OrderedCandidates(neurons, burn) ==> u in Supply(neurons, thisUid, burn)
  {
    var sorted := SortByStake(ValidatorCandidates(neurons));
    CandidateUidsMembers(sorted, burn);
    SortByStakeCorrect(ValidatorCandidates(neurons));
    ValidatorCandidatesMembers(neurons);
    forall u | u in OrderedCandidates(neurons, burn)
      ensures u in Supply(neurons, thisUid, burn)
    {
      var n :| n in sorted && n.uid == Some(u);
      assert n in multiset(sorted);
    }
  }

  /** A validator candidate with a usable uid puts that uid among the ordered candidates. */
  lemma OrderedNonEmpty(neurons: seq<Neuron>, burn: Option<Uid>, n: Neuron)
    requires n in neurons && IsValidatorCandidate(n) && n.uid.Some? && n.uid != burn
    ensures n.uid.value in OrderedCandidates(neurons, burn)
  {
    var candidates := ValidatorCandidates(neurons);
    var sorted := SortByStake(candidates);
    ValidatorCandidatesMembers(neurons);
    assert n in candidates;
    SortByStakeCorrect(candidates);
    assert n in multiset(candidates);
    assert n in multiset(sorted);
    var u := n.uid.value;
    assert n in sorted && n.uid == Some(u);
    CandidateUidsMembers(sorted, burn);
    assert u in CandidateUids(sorted, burn);
  }

  /**
   * The invariants of select_epsilon_uids: no uid twice, never the burn uid, at most
   * max(min_allowed_weights - 1, 0) entries, this validator's own uid first whenever there
   * is room for it, and only uids of this validator or of listed neurons.
   */
  lemma EpsilonSafety(neurons: seq<Neuron>, thisUid: Option<Uid>, burn: Option<Uid>, minAllowedWeights: int)
    ensures var r := Epsilon(neurons, thisUid, burn, minAllowedWeights);
      NoDup(r)
      && (forall u :: u in r ==> burn != Some(u))
      && |r| <= EpsilonTarget(minAllowedWeights)
      && (EpsilonTarget(minAllowedWeights) > 0 ==> Seed(thisUid, burn) <= r)
      && Elems(r) <= Supply(neurons, thisUid, burn)
  {
    var target := EpsilonTarget(minAllowedWeights);
    var seed := Seed(thisUid, burn);
    var r := Epsilon(neurons, thisUid, burn, minAllowedWeights);
    var supply := Supply(neurons, thisUid, burn);
    var ordered := OrderedCandidates(neurons, burn);
    if target > |seed| && ordered != [] {
      OrderedInSupply(neurons, thisUid, burn);
      CandidateUidsMembers(SortByStake(ValidatorCandidates(neurons)), burn);
      var start := StartIndex(ordered, thisUid, target - |seed|);
      WalkFromExtends(ordered, start, 0, seed, target, burn);
      var walked := WalkFrom(ordered, start, 0, seed, target, burn);
      FillFromExtends(neurons, 0, walked, target, burn);
      forall u | u in Elems(r)
        ensures u in supply
      {
        assert u in r;
      }
    }
  }

  /**
   * When the seed does not meet the target and some validator candidate has a usable uid,
   * the list reaches the target or holds every uid of the supply.
   */
  lemma EpsilonFills(neurons: seq<Neuron>, thisUid: Option<Uid>, burn: Option<Uid>, minAllowedWeights: int,
                     n: Neuron)
    requires n in neurons && IsValidatorCandidate(n) && n.uid.Some? && n.uid != burn
    ensures var r := Epsilon(neurons, thisUid, burn, minAllowedWeights);
      |r| == EpsilonTarget(minAllowedWeights) || Elems(r) == Supply(neurons, thisUid, burn)
  {
    var target := EpsilonTarget(minAllowedWeights);
    var seed := Seed(thisUid, burn);
    var r := Epsilon(neurons, thisUid, burn, minAllowedWeights);
    var supply := Supply(neurons, thisUid, burn);
    EpsilonSafety(neurons, thisUid, burn, minAllowedWeights);
    if target == 0 || target <= |seed| {
      return;
    }
    var ordered := OrderedCandidates(neurons, burn);
    OrderedNonEmpty(neurons, burn, n);
    var start := StartIndex(ordered, thisUid, target - |seed|);
    var walked := WalkFrom(ordered, start, 0, seed, target, burn);
    WalkFromExtends(ordered, start, 0, seed, target, burn);
    if |walked| < target {
      FillFromExtends(neurons, 0, walked, target, burn);
      if |r| != target {
        forall u | u in supply
          ensures u in r
        {
          if u !in seed {
            var m :| m in neurons && m.uid.Some? && m.uid != burn && u == m.uid.value;
            var j :| 0 <= j < |neurons| && neurons[j] == m;
            FillCovers(neurons, 0, walked, target, burn, j);
          }
        }
      }
    }
  }

  /** The list is exactly as long as its bound allows: min(target, |supply|), given a usable candidate. */
  lemma EpsilonLength(neurons: seq<Neuron>, thisUid: Option<Uid>, burn: Option<Uid>, minAllowedWeights: int,
                      n: Neuron)
    requires n in neurons && IsValidatorCandidate(n) && n.uid.Some? && n.uid != burn
    ensures var r := Epsilon(neurons, thisUid, burn, minAllowedWeights);
      var target := EpsilonTarget(minAllowedWeights);
      var supply := |Supply(neurons, thisUid, burn)|;
      |r| == if target <= supply then target else supply
  {
    var r := Epsilon(neurons, thisUid, burn, minAllowedWeights);
    var supply := Supply(neurons, thisUid, burn);
    EpsilonSafety(neurons, thisUid, burn, minAllowedWeights);
    EpsilonFills(neurons, thisUid, burn, minAllowedWeights, n);
    NoDupCard(r);
    SubsetCard(Elems(r), supply);
  }

  /**
   * Unless the target is met, the walk takes every ordered candidate: the first
   * |ordered| offsets visit each position once.
   */
  lemma WalkTakesAll(ordered: seq<Uid>, start: nat, seed: seq<Uid>, target: nat, burn: Option<Uid>)
    requires |ordered| > 0 && start < |ordered|
    requires forall u :: u in ordered ==> burn != Some(u)
    ensures var r := WalkFrom(ordered, start, 0, seed, target, burn);
      |r| >= target || forall u :: u in ordered ==> u in r
  {
    var r := WalkFrom(ordered, start, 0, seed, target, burn);
    if |r| < target {
      forall u | u in ordered
        ensures u in r
      {
        var i :| 0 <= i < |ordered| && ordered[i] == u;
        var o := WalkVisits(|ordered|, start, i);
        WalkCovers(ordered, start, 0, seed, target, burn, o);
      }
    }
  }

  /**
   * The rotation: when the seed leaves room and the candidate at the rotation point is not
   * this validator's own uid, that candidate is the first uid chosen after the seed.
   */
  lemma RotationStartChosen(neurons: seq<Neuron>, thisUid: Option<Uid>, burn: Option<Uid>, minAllowedWeights: int)
    requires var ordered := OrderedCandidates(neurons, burn);
      |ordered| > 0 && EpsilonTarget(minAllowedWeights) > |Seed(thisUid, burn)|
      && Some(ordered[StartIndex(ordered, thisUid, EpsilonTarget(minAllowedWeights) - |Seed(thisUid, burn)|)]) != thisUid
    ensures var ordered := OrderedCandidates(neurons, burn);
      var seed := Seed(thisUid, burn);
      var r := Epsilon(neurons, thisUid, burn, minAllowedWeights);
      |r| > |seed| && r[|seed|] == ordered[StartIndex(ordered, thisUid, EpsilonTarget(minAllowedWeights) - |seed|)]
  {
    var target := EpsilonTarget(minAllowedWeights);
    var seed := Seed(thisUid, burn);
    var ordered := OrderedCandidates(neurons, burn);
    var start := StartIndex(ordered, thisUid, target - |seed|);
    CandidateUidsMembers(SortByStake(ValidatorCandidates(neurons)), burn);
    assert ordered[start] in ordered;
    EpsilonStaged(neurons, thisUid, burn, minAllowedWeights);
    WalkThenFillFirst(neurons, ordered, start, seed, target, burn);
  }

  /** A walk whose first visited candidate is free takes it right after the seed. */
  lemma WalkThenFillFirst(neurons: seq<Neuron>, ordered: seq<Uid>, start: nat, seed: seq<Uid>, target: nat,
                          burn: Option<Uid>)
    requires start < |ordered| && |seed| < target && !Taken(ordered[start], seed, burn)
    ensures var r := WalkThenFill(neurons, ordered, start, seed, target, burn);
      |r| > |seed| && r[|seed|] == ordered[start]
  {
    var u := ordered[start];
    assert Mod(start + 0, |ordered|) == start;
    var next := seed + [u];
    assert WalkFrom(ordered, start, 0, seed, target, burn) == WalkFrom(ordered, start, 1, next, target, burn);
    WalkFromExtends(ordered, start, 1, next, target, burn);
    var walked := WalkFrom(ordered, start, 1, next, target, burn);
    FillFromExtends(neurons, 0, walked, target, burn);
  }

  function ExampleNeurons(): seq<Neuron>
  {
    [Neuron(Some(1), None, None, 50.0, true, true, None),
     Neuron(Some(2), None, None, 30.0, true, true, None),
     Neuron(Some(3), None, None, 10.0, true, true, None)]
  }

  /** In the example, the ordered candidates are 1, 2, 3 (highest stake first). */
  lemma ExampleOrdered()
    ensures OrderedCandidates(ExampleNeurons(), Some(0)) == [1, 2, 3]
  {
    var a, b, c := ExampleNeurons()[0], ExampleNeurons()[1], ExampleNeurons()[2];
    assert ExampleNeurons() == [a, b, c];
    assert [a, b, c][1..] == [b, c] && [b, c][1..] == [c];
    assert ValidatorCandidates([c]) == [c];
    assert ValidatorCandidates([b, c]) == [b, c];
    assert ValidatorCandidates([a, b, c]) == [a, b, c];
    assert [a, b][..1] == [a];
    assert SortByStake([a]) == [a];
    assert InsertByStake(b, [a]) == [a, b];
    assert SortByStake([a, b]) == [a, b];
    assert [a, b, c][..2] == [a, b];
    assert InsertByStake(c, [b]) == [b, c];
    assert InsertByStake(c, [a, b]) == [a, b, c];
    assert SortByStake([a, b, c]) == [a, b, c];
    assert CandidateUids([a], Some(0)) == [1];
    assert CandidateUids([a, b], Some(0)) == [1, 2];
    assert CandidateUids([a, b, c], Some(0)) == [1, 2, 3];
  }

  /**
   * A worked example. Validators A (uid 1, stake 50), B (uid 2, stake 30) and C (uid 3,
   * stake 10); this validator is B; min_allowed_weights is 3, so two epsilon uids. B seeds
   * the list, one more is needed, the rotation point is (1 * 1) mod 3 = 1, which is B
   * itself, so the walk continues to C: the result is [B, C].
   */
  lemma EpsilonExample()
    ensures Epsilon(ExampleNeurons(), Some(2), Some(0), 3) == [2, 3]
  {
    ExampleOrdered();
    assert Seed(Some(2), Some(0)) == [2];
    assert MyIndex([1, 2, 3], Some(2)) == 1;
    assert Product(1, 1) == 1;
    assert StartIndex([1, 2, 3], Some(2), 1) == 1;
    assert WalkFrom([1, 2, 3], 1, 2, [2, 3], 2, Some(0)) == [2, 3];
    assert WalkFrom([1, 2, 3], 1, 1, [2], 2, Some(0)) == [2, 3];
    assert WalkFrom([1, 2, 3], 1, 0, [2], 2, Some(0)) == [2, 3];
    EpsilonStaged(ExampleNeurons(), Some(2), Some(0), 3);
  }
  /**
   * Without a usable validator candidate the selection returns the seed at once and the
   * fallback over all neurons never runs. Here this validator (uid 5) is the burn uid and
   * the only permit holder, and neuron 7 holds no permit: min_allowed_weights is 3, yet no
   * epsilon uid is chosen although uid 7 could have been. This is why EpsilonFills and
   * EpsilonLength ask for a candidate.
   */
  lemma EpsilonWithoutCandidates()
    ensures var ns := [Neuron(Some(5), None, None, 10.0, false, true, None),
                       Neuron(Some(7), None, None, 1.0, false, false, None)];
      Epsilon(ns, Some(5), Some(5), 3) == [] && 7 in Supply(ns, Some(5), Some(5))
  {
    var a := Neuron(Some(5), None, None, 10.0, false, true, None);
    var b := Neuron(Some(7), None, None, 1.0, false, false, None);
    assert [a, b][1..] == [b];
    assert ValidatorCandidates([b]) == [];
    assert ValidatorCandidates([a, b]) == [a];
    assert SortByStake([a]) == [a];
    assert CandidateUids([a], Some(5)) == [];
  }
}
