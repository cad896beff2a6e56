/**
 * The burn-target resolver: which uid receives the dominant ("burn") weight.
 * Layered fallback: a configured target uid; else the neuron of the owner coldkey that
 * registered earliest; else the uid of the subnet's registered owner hotkey.
 *
 * The answers of the chain queries are inputs: `subnetOwner` is the owner coldkey of the
 * subnet info (None when the query raised or the field is missing), `ownerHotkey` the
 * SubnetOwnerHotkey storage value and `ownerHotkeyUid` the uid the chain reports for it
 * (None when that hotkey is not registered).
 */
module BurnTarget {
  import opened Common
  import opened Chain

  /** What get_burn_uid as written ends with: a uid (possibly None) or an unbound local. */
  datatype BurnLookup = Found(uid: Option<Uid>) | UnboundOwnerUid

  /** Index of the first neuron whose hotkey is `hotkey`. */
  function FindByHotkey(neurons: seq<Neuron>, hotkey: string): (r: Option<nat>)
    ensures r.Some? ==>
      r.value < |neurons| && neurons[r.value].hotkey == Some(hotkey)
      && forall j :: 0 <= j < r.value ==> neurons[j].hotkey != Some(hotkey)
    ensures r.None? ==> forall j :: 0 <= j < |neurons| ==> neurons[j].hotkey != Some(hotkey)
  {
    if neurons == [] then None
    else if neurons[0].hotkey == Some(hotkey) then Some(0)
    else match FindByHotkey(neurons[1..], hotkey)
      case None => None
      case Some(k) => Some(k + 1)
  }

  /** The neurons whose coldkey is `coldkey`, in list order. */
  function OwnerNeurons(neurons: seq<Neuron>, coldkey: string): (r: seq<Neuron>)
    ensures forall n :: n in r <==> n in neurons && n.coldkey == Some(coldkey)
  {
    if neurons == [] then []
    else if neurons[0].coldkey == Some(coldkey) then [neurons[0]] + OwnerNeurons(neurons[1..], coldkey)
    else OwnerNeurons(neurons[1..], coldkey)
  }

  /** Registration block `a` is strictly earlier than `b`; a missing block counts as +infinity. */
  predicate RegisteredBefore(a: Option<int>, b: Option<int>)
  {
    a.Some? && (b.None? || a.value < b.value)
  }

  /**
   * Python's `min` by registration block: the chosen neuron has no strictly earlier
   * neuron anywhere in the list, and every neuron before it registered strictly later
   * (ties go to the first in list order).
   */
  function EarliestIndex(ns: seq<Neuron>): (i: nat)
    requires |ns| > 0
    ensures i < |ns|
    ensures forall j :: 0 <= j < |ns| ==> !RegisteredBefore(ns[j].registrationBlock, ns[i].registrationBlock)
    ensures forall j :: 0 <= j < i ==> RegisteredBefore(ns[i].registrationBlock, ns[j].registrationBlock)
  {
    if |ns| == 1 then 0
    else
      var i := EarliestIndex(ns[..|ns| - 1]);
      if RegisteredBefore(ns[|ns| - 1].registrationBlock, ns[i].registrationBlock) then |ns| - 1 else i
  }

  /**
   * The owner-coldkey step (burn_subnet.py:276-309). `ownerUid` is the value of the local
   * `sn_owner_uid` when it is bound (Some) and None when it is not.
   */
  function FromOwnerColdkey(neurons: seq<Neuron>, coldkey: string, ownerHotkeyUid: Option<Uid>,
                            ownerUid: Option<Option<Uid>>): BurnLookup
  {
    var owners := OwnerNeurons(neurons, coldkey);
    if owners == [] then Found(ownerHotkeyUid)
    else
      var candidate := owners[EarliestIndex(owners)];
      if candidate.uid.Some? then Found(candidate.uid)
      else if ownerUid.Some? then Found(ownerUid.value)
      else UnboundOwnerUid
  }

  /**
   * get_burn_uid as written: when the owner coldkey came from the subnet info,
   * `sn_owner_uid` was never assigned, so a burn candidate without a uid ends in an
   * unbound local variable instead of the owner-hotkey fallback.
   */
  function GetBurnUidAsWritten(neurons: seq<Neuron>, subnetOwner: Option<string>,
                               ownerHotkey: string, ownerHotkeyUid: Option<Uid>): BurnLookup
  {
    if subnetOwner.Some? then FromOwnerColdkey(neurons, subnetOwner.value, ownerHotkeyUid, None)
    else match FindByHotkey(neurons, ownerHotkey)
      case None => Found(ownerHotkeyUid)
      case Some(k) =>
        if neurons[k].coldkey.None? then Found(ownerHotkeyUid)
        else FromOwnerColdkey(neurons, neurons[k].coldkey.value, ownerHotkeyUid, Some(ownerHotkeyUid))
  }

  /** The defect exhibited: an owner neuron without a uid, owner coldkey from the subnet info. */
  lemma UnboundOwnerUidWitness()
    ensures GetBurnUidAsWritten([Neuron(None, Some("hk"), Some("ck"), 1.0, true, true, Some(7))],
                                Some("ck"), "hk", Some(3)) == UnboundOwnerUid
  {
    var ns := [Neuron(None, Some("hk"), Some("ck"), 1.0, true, true, Some(7))];
    assert OwnerNeurons(ns, "ck") == ns;
  }

  /**
   * The owner coldkey get_burn_uid searches for: the subnet info's, else the coldkey of the
   * first neuron holding the owner hotkey; None when neither gives one.
   */
  function OwnerColdkey(neurons: seq<Neuron>, subnetOwner: Option<string>, ownerHotkey: string): (k: Option<string>)
    ensures subnetOwner.Some? ==> k == subnetOwner
    ensures subnetOwner.None? && k.Some? ==>
      exists i :: 0 <= i < |neurons| && neurons[i].hotkey == Some(ownerHotkey) && neurons[i].coldkey == k
    ensures subnetOwner.None? && (forall n :: n in neurons ==> n.hotkey != Some(ownerHotkey)) ==> k.None?
  {
    if subnetOwner.Some? then subnetOwner
    else match FindByHotkey(neurons, ownerHotkey)
      case None => None
      case Some(k) => neurons[k].coldkey
  }

  /**
   * get_burn_uid with the owner-hotkey fallback on every path, as the log message at
   * burn_subnet.py:305 says it should be. When the owner coldkey holds neurons, the one
   * registered earliest (first in list order on ties) wins if it has a uid; in every other
   * case the owner-hotkey uid is the answer.
   */
  function GetBurnUid(neurons: seq<Neuron>, subnetOwner: Option<string>,
                      ownerHotkey: string, ownerHotkeyUid: Option<Uid>): (r: Option<Uid>)
    ensures var k := OwnerColdkey(neurons, subnetOwner, ownerHotkey);
      r == ownerHotkeyUid
      || exists n :: n in neurons && r == n.uid && r.Some? && k.Some? && n.coldkey == k
           && forall m :: m in neurons && m.coldkey == n.coldkey ==>
                !RegisteredBefore(m.registrationBlock, n.registrationBlock)
    ensures var k := OwnerColdkey(neurons, subnetOwner, ownerHotkey);
      k.None? ==> r == ownerHotkeyUid
    ensures var k := OwnerColdkey(neurons, subnetOwner, ownerHotkey);
      k.Some? ==>
        var owners := OwnerNeurons(neurons, k.value);
        (owners == [] ==> r == ownerHotkeyUid)
        && (owners != [] ==>
              var winner := owners[EarliestIndex(owners)];
              r == if winner.uid.Some? then winner.uid else ownerHotkeyUid)
    ensures GetBurnUidAsWritten(neurons, subnetOwner, ownerHotkey, ownerHotkeyUid) != UnboundOwnerUid ==>
      GetBurnUidAsWritten(neurons, subnetOwner, ownerHotkey, ownerHotkeyUid) == Found(r)
  {
    var coldkey := OwnerColdkey(neurons, subnetOwner, ownerHotkey);
    if coldkey.None? then ownerHotkeyUid
    else
      var result := FromOwnerColdkey(neurons, coldkey.value, ownerHotkeyUid, Some(ownerHotkeyUid));
      FromOwnerColdkeyChoice(neurons, coldkey.value, ownerHotkeyUid);
      result.uid
  }

  /** The owner-coldkey step always answers with the fallback or an earliest owner neuron. */
  lemma FromOwnerColdkeyChoice(neurons: seq<Neuron>, coldkey: string, ownerHotkeyUid: Option<Uid>)
    ensures var r := FromOwnerColdkey(neurons, coldkey, ownerHotkeyUid, Some(ownerHotkeyUid));
      r.Found? &&
      (r.uid == ownerHotkeyUid
      || exists n :: n in neurons && r.uid == n.uid && r.uid.Some? && n.coldkey == Some(coldkey)
           && forall m :: m in neurons && m.coldkey == n.coldkey ==>
                !RegisteredBefore(m.registrationBlock, n.registrationBlock))
  {
    var owners := OwnerNeurons(neurons, coldkey);
    if owners != [] {
      var i := EarliestIndex(owners);
      var n := owners[i];
      if n.uid.Some? {
        assert n in neurons;
        forall m | m in neurons && m.coldkey == n.coldkey
          ensures !RegisteredBefore(m.registrationBlock, n.registrationBlock)
        {
          assert m in owners;
          var j :| 0 <= j < |owners| && owners[j] == m;
        }
      }
    }
  }

  /**
   * determine_burn_uid: a configured target uid always wins; otherwise the resolver's
   * answer, which is the owner-hotkey uid or the uid of a neuron of the owner coldkey.
   */
  function DetermineBurnUid(targetUid: Option<Uid>, neurons: seq<Neuron>, subnetOwner: Option<string>,
                            ownerHotkey: string, ownerHotkeyUid: Option<Uid>): (r: Option<Uid>)
    ensures targetUid.Some? ==> r == targetUid
    ensures targetUid.None? ==>
      r == ownerHotkeyUid || exists n :: n in neurons && r == n.uid && r.Some? && n.coldkey.Some?
  {
    if targetUid.Some? then targetUid
    else GetBurnUid(neurons, subnetOwner, ownerHotkey, ownerHotkeyUid)
  }

  /** With no neuron of the owner coldkey, the owner-hotkey uid is the answer. */
  lemma NoOwnerNeuronsFallsBack(neurons: seq<Neuron>, coldkey: string, ownerHotkey: string,
                                ownerHotkeyUid: Option<Uid>)
    requires forall n :: n in neurons ==> n.coldkey != Some(coldkey)
    ensures GetBurnUid(neurons, Some(coldkey), ownerHotkey, ownerHotkeyUid) == ownerHotkeyUid
  {
    var owners := OwnerNeurons(neurons, coldkey);
    if owners != [] {
      assert owners[0] in neurons;
    }
  }

  /** Without an owner coldkey and without a neuron of the owner hotkey, the owner-hotkey uid. */
  lemma NoOwnerColdkeyFallsBack(neurons: seq<Neuron>, ownerHotkey: string, ownerHotkeyUid: Option<Uid>)
    requires forall n :: n in neurons ==> n.hotkey != Some(ownerHotkey)
    ensures GetBurnUid(neurons, None, ownerHotkey, ownerHotkeyUid) == ownerHotkeyUid
  {
    assert FindByHotkey(neurons, ownerHotkey).None?;
  }
}
