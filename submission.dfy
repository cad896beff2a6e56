/**
 * Weight submission across the subnet's mechanisms: one set_weights call per mechanism,
 * the mechanism with the largest emission share first, and the round succeeds when any
 * one call is accepted.
 *
 * The chain's answers are inputs: `count` is the mechanism count, `split` the emission
 * split (share of mechanism m at index m) and `accepted` the mechanisms whose set_weights
 * call the chain accepts.
 */
module Submission {
  import opened Common

  /** The sort key of mechanism m: 100 minus its emission share. */
  function SortKey(split: seq<int>, m: nat): int
    requires m < |split|
  {
    100 - split[m]
  }

  /** Every mechanism id indexes the split. */
  predicate InSplit(split: seq<int>, s: seq<nat>)
  {
    forall i :: 0 <= i < |s| ==> s[i] < |split|
  }

  /** Mechanism a is submitted before b: a larger share, or an equal share and a smaller id. */
  predicate Precedes(split: seq<int>, a: nat, b: nat)
    requires a < |split| && b < |split|
  {
    split[a] > split[b] || (split[a] == split[b] && a < b)
  }

  /**
   * The order Python's stable `sorted` produces with that key: larger share first, equal
   * shares in ascending id order.
   */
  predicate MechanismsOrdered(split: seq<int>, s: seq<nat>)
    requires InSplit(split, s)
  {
    forall i, j :: 0 <= i < j < |s| ==> Precedes(split, s[i], s[j])
  }

  /** An ordered sequence stays ordered under a new head that precedes all of it. */
  lemma OrderedCons(split: seq<int>, x: nat, t: seq<nat>)
    requires x < |split| && InSplit(split, t) && MechanismsOrdered(split, t)
    requires forall k :: 0 <= k < |t| ==> Precedes(split, x, t[k])
    ensures InSplit(split, [x] + t) && MechanismsOrdered(split, [x] + t)
  {
    var r := [x] + t;
    forall i, j | 0 <= i < j < |r|
      ensures Precedes(split, r[i], r[j])
    {
      assert r[j] == t[j - 1];
      if i > 0 {
        assert r[i] == t[i - 1];
      }
    }
  }

  /** Stable insertion: `m` goes after every entry whose key is not larger than its own. */
  function InsertMechanism(split: seq<int>, m: nat, s: seq<nat>): (r: seq<nat>)
    requires m < |split| && InSplit(split, s)
    ensures |r| == |s| + 1 && InSplit(split, r) && forall x :: x in r <==> x in s || x == m
  {
    if s == [] then [m]
    else if SortKey(split, s[0]) <= SortKey(split, m) then [s[0]] + InsertMechanism(split, m, s[1..])
    else [m] + s
  }

  /** sorted(range(count), key=lambda m: 100 - split[m]). */
  function SortedMechanisms(split: seq<int>, count: nat): (r: seq<nat>)
    requires count <= |split|
    ensures |r| == count && InSplit(split, r)
    ensures forall x: int :: x in r <==> 0 <= x < count
  {
    if count == 0 then [] else InsertMechanism(split, count - 1, SortedMechanisms(split, count - 1))
  }

  /** Inserting an id larger than all present keeps the order. */
  lemma {:induction false} InsertMechanismOrdered(split: seq<int>, m: nat, s: seq<nat>)
    requires m < |split| && InSplit(split, s) && MechanismsOrdered(split, s)
    requires forall i :: 0 <= i < |s| ==> s[i] < m
    ensures MechanismsOrdered(split, InsertMechanism(split, m, s))
  {
    if s == [] {
    } else if SortKey(split, s[0]) <= SortKey(split, m) {
      var tail := s[1..];
      assert forall i :: 0 <= i < |tail| ==> tail[i] == s[i + 1];
      assert InSplit(split, tail);
      assert MechanismsOrdered(split, tail);
      InsertMechanismOrdered(split, m, tail);
      var rest := InsertMechanism(split, m, tail);
      forall k | 0 <= k < |rest|
        ensures Precedes(split, s[0], rest[k])
      {
        if rest[k] != m {
          assert rest[k] in tail;
          var i :| 0 <= i < |tail| && tail[i] == rest[k];
          assert Precedes(split, s[0], s[i + 1]);
        }
      }
      OrderedCons(split, s[0], rest);
    } else {
      forall k | 0 <= k < |s|
        ensures Precedes(split, m, s[k])
      {
        if k > 0 {
          assert Precedes(split, s[0], s[k]);
        }
      }
      OrderedCons(split, m, s);
    }
  }

  /**
   * The sorted mechanism ids are every id below the count, each once, ordered by
   * descending emission share with ties by ascending id.
   */
  lemma {:induction false} SortedMechanismsCorrect(split: seq<int>, count: nat)
    requires count <= |split|
    ensures var r := SortedMechanisms(split, count);
      InSplit(split, r) && MechanismsOrdered(split, r) && NoDup(r)
  {
    if count > 0 {
      var prev := SortedMechanisms(split, count - 1);
      SortedMechanismsCorrect(split, count - 1);
      assert forall i :: 0 <= i < |prev| ==> prev[i] in prev;
      InsertMechanismOrdered(split, count - 1, prev);
    }
    OrderedNoDup(split, SortedMechanisms(split, count));
  }

  /** The order is strict, so an ordered sequence repeats no id. */
  lemma OrderedNoDup(split: seq<int>, r: seq<nat>)
    requires InSplit(split, r) && MechanismsOrdered(split, r)
    ensures NoDup(r)
  {
    forall i, j | 0 <= i < j < |r|
      ensures r[i] != r[j]
    {
      assert Precedes(split, r[i], r[j]);
    }
  }

  /** What the chosen mechanism ids are, or the exception raised while choosing them. */
  datatype MechanismChoice = Ids(order: seq<nat>) | RaisesTypeError | RaisesIndexError

  /**
   * Mechanism ids as written: `len()` is applied to the mechanism count, an integer,
   * which raises TypeError before anything is submitted.
   */
  function MechanismIdsAsWritten(count: nat, split: seq<int>): MechanismChoice
  {
    RaisesTypeError
  }

  /**
   * Mechanism ids as evidently intended: mechanism 0 alone when there is one mechanism,
   * otherwise every mechanism sorted by the key; the key reads split[m] for every id, so a
   * split shorter than the count raises IndexError.
   */
  function MechanismIds(count: nat, split: seq<int>): MechanismChoice
  {
    if count == 1 then Ids([0])
    else if |split| < count then RaisesIndexError
    else Ids(SortedMechanisms(split, count))
  }

  /**
   * The corrected choice submits to every mechanism exactly once, largest share first,
   * and fails exactly when several mechanisms exist and the split does not cover them.
   */
  lemma MechanismIdsCorrect(count: nat, split: seq<int>)
    ensures var c := MechanismIds(count, split);
      (c.RaisesIndexError? <==> count > 1 && |split| < count)
      && !c.RaisesTypeError?
      && (c.Ids? ==>
            NoDup(c.order) && (forall m: int :: m in c.order <==> 0 <= m < count)
            && (count > 1 ==> InSplit(split, c.order) && MechanismsOrdered(split, c.order)))
  {
    if count != 1 && |split| >= count {
      SortedMechanismsCorrect(split, count);
    }
  }

  /** The defect exhibited: with a single mechanism the corrected code submits to mechanism 0. */
  lemma MechanismCountWitness()
    ensures MechanismIdsAsWritten(1, [100]) == RaisesTypeError
    ensures MechanismIds(1, [100]) == Ids([0])
  {
  }

  /** Shares 10, 70, 20 give the order 1, 2, 0; shares 30, 70, 30 keep 0 before 2. */
  lemma MechanismOrderExample()
    ensures MechanismIds(3, [10, 70, 20]) == Ids([1, 2, 0])
    ensures MechanismIds(3, [30, 70, 30]) == Ids([1, 0, 2])
  {
    assert SortedMechanisms([10, 70, 20], 1) == [0];
    assert SortedMechanisms([10, 70, 20], 2) == [1, 0];
    assert SortedMechanisms([30, 70, 30], 1) == [0];
    assert SortedMechanisms([30, 70, 30], 2) == [1, 0];
  }

  /** The outcome of a submission round: the mechanisms called, in order, and any_success. */
  datatype SubmitResult = Submitted(calls: seq<nat>, anySuccess: bool) | Raised(choice: MechanismChoice)

  /** `any_success |= success` over the calls made so far: some call was accepted. */
  function AnyAccepted(calls: seq<nat>, accepted: set<nat>): (r: bool)
    ensures r <==> exists m :: m in calls && m in accepted
  {
    if calls == [] then false
    else AnyAccepted(calls[..|calls| - 1], accepted) || calls[|calls| - 1] in accepted
  }

  /**
   * What a submission round amounts to: the chosen mechanisms are called in order and the
   * round succeeds when any call was accepted, or the error raised while choosing.
   */
  function SubmissionOutcome(count: nat, split: seq<int>, accepted: set<nat>): SubmitResult
  {
    match MechanismIds(count, split)
    case Ids(order) => Submitted(order, AnyAccepted(order, accepted))
    case other => Raised(other)
  }

  /**
   * submit_weights: one set_weights call per chosen mechanism, in order, a rejected call
   * not stopping later ones; an exception while choosing the mechanisms propagates before
   * any call.
   */
  method SubmitWeights(count: nat, split: seq<int>, accepted: set<nat>) returns (result: SubmitResult)
    ensures result == SubmissionOutcome(count, split, accepted)
  {
    var choice := MechanismIds(count, split);
    if !choice.Ids? {
      return Raised(choice);
    }
    var mechids := choice.order;
    var calls: seq<nat> := [];
    var anySuccess := false;
    for k := 0 to |mechids|
      invariant calls == mechids[..k]
      invariant anySuccess == AnyAccepted(calls, accepted)
    {
      var success := mechids[k] in accepted;
      calls := calls + [mechids[k]];
      assert calls[..|calls| - 1] == mechids[..k];
      anySuccess := anySuccess || success;
    }
    assert calls == mechids;
    return Submitted(calls, anySuccess);
  }

  /**
   * A round calls every mechanism exactly once, largest share first, and succeeds exactly
   * when the chain accepted at least one of them; with one mechanism it calls mechanism 0.
   */
  lemma SubmissionOutcomeCorrect(count: nat, split: seq<int>, accepted: set<nat>)
    ensures var r := SubmissionOutcome(count, split, accepted);
      (r.Submitted? <==> count <= 1 || count <= |split|)
      && (r.Submitted? ==>
            NoDup(r.calls) && (forall m: int :: m in r.calls <==> 0 <= m < count)
            && (r.anySuccess <==> exists m :: 0 <= m < count && m in accepted)
            && (count == 1 ==> r.calls == [0])
            && (count > 1 ==> InSplit(split, r.calls) && MechanismsOrdered(split, r.calls)))
  {
    MechanismIdsCorrect(count, split);
  }

  /** submit_weights as written: the TypeError from `len()` escapes before any call. */
  method SubmitWeightsAsWritten(count: nat, split: seq<int>, accepted: set<nat>) returns (result: SubmitResult)
    ensures result == Raised(MechanismIdsAsWritten(count, split))
    ensures !result.Submitted?
  {
    var choice := MechanismIdsAsWritten(count, split);
    result := Raised(choice);
  }
}
