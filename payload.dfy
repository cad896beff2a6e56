/**
 * The weight payload: the burn uid carries `max_weight_limit`, each epsilon uid carries 1,
 * and the number of entries meets `min_allowed_weights` whenever enough uids exist.
 */
module Payload {
  import opened Common
  import opened Chain
  import opened EpsilonSelector

  /** The default when MinAllowedWeights cannot be read. */
  const DEFAULT_MIN_ALLOWED_WEIGHTS: int := 1

  /** The default when MaxWeightsLimit cannot be read. */
  const DEFAULT_MAX_WEIGHT_LIMIT: int := 65535

  /**
   * A chain limit read with `max(int(value), 1)`: the default when the query raises or the
   * value does not convert, the converted value otherwise, never below 1.
   */
  function ClampedLimit(response: QueryResponse, default: int): (limit: int)
    ensures response.QueryRaised? || response.NotConvertible? ==> limit == default
    ensures response.IntValue? ==> limit >= 1 && (response.i >= 1 ==> limit == response.i)
    ensures response.IntValue? && response.i < 1 ==> limit == 1
    ensures response.FloatValue? ==>
      limit >= 1 && (response.r >= 1.0 ==> limit as real <= response.r < limit as real + 1.0)
    ensures response.FloatValue? && response.r < 1.0 ==> limit == 1
  {
    match response
    case QueryRaised => default
    case NotConvertible => default
    case IntValue(i) => if i > 1 then i else 1
    case FloatValue(r) => var t := TruncateTowardZero(r); if t > 1 then t else 1
  }

  /** get_min_allowed_weights. */
  function MinAllowedWeights(response: QueryResponse): (limit: int)
    ensures limit >= 1
  {
    ClampedLimit(response, DEFAULT_MIN_ALLOWED_WEIGHTS)
  }

  /** get_max_weight_limit. */
  function MaxWeightLimit(response: QueryResponse): (limit: int)
    ensures limit >= 1
  {
    ClampedLimit(response, DEFAULT_MAX_WEIGHT_LIMIT)
  }

  /** The uids and weights handed to the chain, position by position. */
  datatype WeightPayload = WeightPayload(uids: seq<Option<Uid>>, weights: seq<real>)

  /** The epsilon uids as payload entries. */
  function Lift(eps: seq<Uid>): (r: seq<Option<Uid>>)
    ensures |r| == |eps| && forall i :: 0 <= i < |eps| ==> r[i] == Some(eps[i])
  {
    seq(|eps|, i requires 0 <= i < |eps| => Some(eps[i]))
  }

  /** `n` copies of the weight 1. */
  function Ones(n: nat): (r: seq<real>)
    ensures |r| == n && forall i :: 0 <= i < n ==> r[i] == 1.0
  {
    seq(n, _ => 1.0)
  }

  /**
   * prepare_weight_payload, from the two limit queries' answers: with a minimum of one
   * weight, the burn uid alone with weight 1.0; otherwise the burn uid with the maximum
   * weight followed by the epsilon uids (cut to min_allowed_weights - 1) with weight 1.
   */
  function PrepareWeightPayload(neurons: seq<Neuron>, burn: Option<Uid>, thisUid: Option<Uid>,
                                minResponse: QueryResponse, maxResponse: QueryResponse): WeightPayload
  {
    var minAllowed := MinAllowedWeights(minResponse);
    var maxLimit := MaxWeightLimit(maxResponse);
    if minAllowed == 1 then WeightPayload([burn], [1.0])
    else
      var eps := Epsilon(neurons, thisUid, burn, minAllowed);
      var kept := eps[..if |eps| <= EpsilonTarget(minAllowed) then |eps| else EpsilonTarget(minAllowed)];
      WeightPayload([burn] + Lift(kept), [maxLimit as real] + Ones(|kept|))
  }

  /**
   * The shape of every payload: as many weights as uids, the burn uid first with the
   * largest weight, weight 1 everywhere else, no uid twice, the burn uid only once, and no
   * more entries than min_allowed_weights; the cut to min_allowed_weights - 1 never removes
   * anything.
   */
  lemma PayloadShape(neurons: seq<Neuron>, burn: Option<Uid>, thisUid: Option<Uid>,
                     minResponse: QueryResponse, maxResponse: QueryResponse)
    ensures var p := PrepareWeightPayload(neurons, burn, thisUid, minResponse, maxResponse);
      var minAllowed := MinAllowedWeights(minResponse);
      |p.uids| == |p.weights| && 1 <= |p.uids| <= minAllowed
      && p.uids[0] == burn
      && (forall i :: 1 <= i < |p.uids| ==> p.uids[i] != burn && p.uids[i].Some? && p.weights[i] == 1.0)
      && (forall i :: 1 <= i < |p.weights| ==> p.weights[i] <= p.weights[0])
      && NoDup(p.uids)
      && (minAllowed == 1 ==> p.uids == [burn] && p.weights == [1.0])
      && (minAllowed > 1 ==>
            p.weights[0] == MaxWeightLimit(maxResponse) as real
            && p.uids[1..] == Lift(Epsilon(neurons, thisUid, burn, minAllowed)))
  {
    var p := PrepareWeightPayload(neurons, burn, thisUid, minResponse, maxResponse);
    var minAllowed := MinAllowedWeights(minResponse);
    if minAllowed > 1 {
      var eps := Epsilon(neurons, thisUid, burn, minAllowed);
      EpsilonSafety(neurons, thisUid, burn, minAllowed);
      assert eps[..|eps|] == eps;
      assert p.uids == [burn] + Lift(eps);
      assert p.uids[1..] == Lift(eps);
      forall i, j | 0 <= i < j < |p.uids|
        ensures p.uids[i] != p.uids[j]
      {
        if i > 0 {
          assert p.uids[i] == Some(eps[i - 1]) && p.uids[j] == Some(eps[j - 1]);
        }
      }
    }
  }

  /**
   * The payload meets the minimum whenever it can: given a validator candidate with a
   * usable uid, it has exactly min(min_allowed_weights, 1 + |supply|) entries.
   */
  lemma PayloadMeetsMinimum(neurons: seq<Neuron>, burn: Option<Uid>, thisUid: Option<Uid>,
                            minResponse: QueryResponse, maxResponse: QueryResponse, n: Neuron)
    requires n in neurons && IsValidatorCandidate(n) && n.uid.Some? && n.uid != burn
    ensures var p := PrepareWeightPayload(neurons, burn, thisUid, minResponse, maxResponse);
      var minAllowed := MinAllowedWeights(minResponse);
      var supply := |Supply(neurons, thisUid, burn)|;
      |p.uids| == if minAllowed <= 1 + supply then minAllowed else 1 + supply
  {
    var minAllowed := MinAllowedWeights(minResponse);
    if minAllowed > 1 {
      var eps := Epsilon(neurons, thisUid, burn, minAllowed);
      EpsilonSafety(neurons, thisUid, burn, minAllowed);
      EpsilonLength(neurons, thisUid, burn, minAllowed, n);
      assert eps[..|eps|] == eps;
    }
  }
}
