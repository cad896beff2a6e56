/**
 * Endpoint rotation: before every iteration the scheduler may move to the next local
 * subtensor endpoint of a fixed list, cyclically.
 */
module Endpoint {

  /** The local subtensors rotated through, in order. */
  const LOCAL_SUBTENSORS: seq<string> := ["cali", "candyland", "datacenter01", "la", "moonbase", "titan"]

  /**
   * The `--local-subtensor` setting: absent (the finney network, no rotation), given
   * without a value (rotate), or given with a name.
   */
  datatype LocalSubtensor = NotGiven | RotateAll | Named(name: string)

  /** The websocket address of a local subtensor. */
  function NetworkUrl(name: string): string
  {
    "ws://subtensor-" + name + ".rizzo.network:9944"
  }

  /** The cursor's next position: one step forward, wrapping at the end of the list. */
  function NextIndex(i: int): (j: int)
    requires 0 <= i < |LOCAL_SUBTENSORS|
    ensures 0 <= j < |LOCAL_SUBTENSORS|
    ensures j == if i + 1 == |LOCAL_SUBTENSORS| then 0 else i + 1
  {
    (i + 1) % |LOCAL_SUBTENSORS|
  }

  /** The cursor after `k` rotations. */
  function Rotated(i: int, k: nat): (j: int)
    requires 0 <= i < |LOCAL_SUBTENSORS|
    ensures 0 <= j < |LOCAL_SUBTENSORS|
  {
    if k == 0 then i else NextIndex(Rotated(i, k - 1))
  }

  /**
   * The endpoint an iteration uses: a non-empty configured name wins; otherwise (no name,
   * or an empty one, which Python treats as false) the entry under the cursor.
   */
  function EndpointName(setting: LocalSubtensor, index: int): (name: string)
    requires 0 <= index < |LOCAL_SUBTENSORS|
    ensures setting.Named? && setting.name != "" ==> name == setting.name
    ensures !(setting.Named? && setting.name != "") ==> name == LOCAL_SUBTENSORS[index]
  {
    if setting.Named? && setting.name != "" then setting.name else LOCAL_SUBTENSORS[index]
  }

  /** The scheduler's endpoint state: the setting, the rotation cursor and the network address. */
  class BurnValidator {
    const localSubtensor: LocalSubtensor
    var localSubtensorIndex: int
    var network: string

    predicate Valid()
      reads this
    {
      0 <= localSubtensorIndex < |LOCAL_SUBTENSORS|
    }

    /** The cursor starts at an arbitrary entry of the list (random.randint(0, 5)). */
    constructor(setting: LocalSubtensor, initialIndex: int, initialNetwork: string)
      requires 0 <= initialIndex < |LOCAL_SUBTENSORS|
      ensures Valid()
      ensures localSubtensor == setting && localSubtensorIndex == initialIndex && network == initialNetwork
    {
      localSubtensor := setting;
      localSubtensorIndex := initialIndex;
      network := initialNetwork;
    }

    /**
     * rotate_local_subtensor: nothing happens without the setting; otherwise the cursor
     * advances cyclically (even when a name is configured) and the network address points
     * at the endpoint the setting and the cursor select.
     */
    method RotateLocalSubtensor()
      requires Valid()
      modifies this
      ensures Valid()
      ensures localSubtensor.NotGiven? ==>
        localSubtensorIndex == old(localSubtensorIndex) && network == old(network)
      ensures !localSubtensor.NotGiven? ==>
        localSubtensorIndex == NextIndex(old(localSubtensorIndex))
        && network == NetworkUrl(EndpointName(localSubtensor, localSubtensorIndex))
    {
      if localSubtensor.NotGiven? {
        return;
      }
      localSubtensorIndex := (localSubtensorIndex + 1) % |LOCAL_SUBTENSORS|;
      var networkName := if localSubtensor.Named? && localSubtensor.name != "" then localSubtensor.name
                         else LOCAL_SUBTENSORS[localSubtensorIndex];
      network := NetworkUrl(networkName);
    }
  }

  /** The cursor is a cycle: after as many rotations as endpoints it is back where it started. */
  lemma {:induction false} RotationCycles(i: int, k: nat)
    requires 0 <= i < |LOCAL_SUBTENSORS|
    ensures Rotated(i, k) == (i + k) % |LOCAL_SUBTENSORS|
  {
    if k > 0 {
      RotationCycles(i, k - 1);
    }
  }

  /**
   * Rotation is fair: every endpoint is used within any |LOCAL_SUBTENSORS| consecutive
   * rotations, and after exactly that many the cursor is back at its start.
   */
  lemma RotationVisitsAll(i: int, target: int)
    requires 0 <= i < |LOCAL_SUBTENSORS| && 0 <= target < |LOCAL_SUBTENSORS|
    ensures Rotated(i, |LOCAL_SUBTENSORS|) == i
    ensures exists k :: 1 <= k <= |LOCAL_SUBTENSORS| && Rotated(i, k) == target
  {
    RotationCycles(i, |LOCAL_SUBTENSORS|);
    var k := if target > i then target - i else target - i + |LOCAL_SUBTENSORS|;
    RotationCycles(i, k);
  }
}
