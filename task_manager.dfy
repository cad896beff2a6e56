/**
 * The capacity bookkeeping of a validator that hands out queries to miners: a nested table
 * uid -> provider -> model -> remaining query slots, its configured capacities, and the
 * operations that consume, restore and rebase it.
 *
 * A Python dict becomes a Dafny `map`, a value of None an `Option`; maps are values, so a
 * deep copy is plain assignment and no two fields ever share a table.
 */
module TaskManager {
  import opened Common
  import opened Chain

  type ModelCaps = map<string, int>
  type ProviderCaps = map<string, ModelCaps>

  /** uid -> None, or uid -> provider -> model -> capacity. */
  type Resources = map<Uid, Option<ProviderCaps>>

  type RawModelCaps = map<string, real>
  type RawProviderCaps = map<string, RawModelCaps>

  /** A table as it arrives, before its leaves are converted with int(). */
  type RawResources = map<Uid, Option<RawProviderCaps>>

  /** One (uid, provider, model) position of the table. */
  datatype Slot = Slot(uid: Uid, provider: string, model: string)

  /** The providers of a uid; none when the uid is missing or maps to None. */
  function ProvidersOf(r: Resources, u: Uid): ProviderCaps
  {
    if u in r && r[u].Some? then r[u].value else map[]
  }

  /** The models of a provider; none when the provider is missing. */
  function ModelsOf(providers: ProviderCaps, p: string): ModelCaps
  {
    if p in providers then providers[p] else map[]
  }

  /** The value at a slot, None when any level is missing or is None. */
  function Leaf(r: Resources, s: Slot): Option<int>
  {
    var models := ModelsOf(ProvidersOf(r, s.uid), s.provider);
    if s.model in models then Some(models[s.model]) else None
  }

  /** Two tables have values at the same slots. */
  ghost predicate SameSlots(a: Resources, b: Resources)
  {
    forall s :: Leaf(a, s).Some? <==> Leaf(b, s).Some?
  }

  /** The models of a (uid, provider) of one table are among those of a table with the same slots. */
  lemma ModelsCovered(a: Resources, b: Resources, u: Uid, p: string)
    requires SameSlots(a, b)
    ensures ModelsOf(ProvidersOf(a, u), p).Keys <= ModelsOf(ProvidersOf(b, u), p).Keys
  {
    forall m | m in ModelsOf(ProvidersOf(a, u), p)
      ensures m in ModelsOf(ProvidersOf(b, u), p)
    {
      assert Leaf(a, Slot(u, p, m)).Some?;
    }
  }

  /**
   * update_nested_dict(table, [uid, provider, model], v): the missing levels are created
   * (a None level is replaced by an empty dict) and the value is set.
   */
  function SetLeaf(r: Resources, s: Slot, v: int): Resources
  {
    var providers := ProvidersOf(r, s.uid);
    r[s.uid := Some(providers[s.provider := ModelsOf(providers, s.provider)[s.model := v]])]
  }

  /**
   * Setting a slot that already holds a value changes that value and nothing else: the
   * same uids, the same slots, every other value as before.
   */
  lemma SetExistingLeaf(r: Resources, s: Slot, v: int)
    requires Leaf(r, s).Some?
    ensures SetLeaf(r, s, v).Keys == r.Keys
    ensures forall t :: Leaf(SetLeaf(r, s, v), t) == if t == s then Some(v) else Leaf(r, t)
  {
  }

  /** int() applied to every leaf; a None uid entry stays None. */
  function Coerce(raw: RawResources): (r: Resources)
    ensures r.Keys == raw.Keys
  {
    map u | u in raw ::
      if raw[u].None? then None
      else Some(map p | p in raw[u].value ::
                  map m | m in raw[u].value[p] :: TruncateTowardZero(raw[u].value[p][m]))
  }

  /** Coercion keeps every key, keeps None entries, and truncates every value toward zero. */
  lemma CoerceLeaves(raw: RawResources, s: Slot)
    ensures var r := Coerce(raw);
      Leaf(r, s).Some? <==>
        (s.uid in raw && raw[s.uid].Some? && s.provider in raw[s.uid].value
         && s.model in raw[s.uid].value[s.provider])
    ensures Leaf(Coerce(raw), s).Some? ==>
      Leaf(Coerce(raw), s).value == TruncateTowardZero(raw[s.uid].value[s.provider][s.model])
    ensures forall u :: u in raw ==> (Coerce(raw)[u].None? <==> raw[u].None?)
  {
  }

  /**
   * `base` with the entries of `upd` written over it, for the keys of `done` only: the
   * state of a dictionary after a loop has applied the updates of the keys visited so far.
   */
  function Overlay<K, V>(base: map<K, V>, upd: map<K, V>, done: set<K>): (r: map<K, V>)
    ensures r.Keys == base.Keys + (done * upd.Keys)
  {
    map k | k in base.Keys + (done * upd.Keys) :: if k in done * upd.Keys then upd[k] else base[k]
  }

  /** Nothing applied yet: the base itself. */
  lemma OverlayNone<K, V>(base: map<K, V>, upd: map<K, V>)
    ensures Overlay(base, upd, {}) == base
  {
    assert Overlay(base, upd, {}).Keys == base.Keys;
  }

  /** One key of an overlay: its update once visited, its base value otherwise. */
  lemma OverlayAt<K, V>(base: map<K, V>, upd: map<K, V>, done: set<K>, k: K)
    ensures k in done && k in upd ==> k in Overlay(base, upd, done) && Overlay(base, upd, done)[k] == upd[k]
    ensures !(k in done && k in upd) ==>
      (k in Overlay(base, upd, done) <==> k in base)
      && (k in base ==> Overlay(base, upd, done)[k] == base[k])
  {
  }

  /** A visited key with an update holds that update. */
  lemma OverlayHit<K, V>(base: map<K, V>, upd: map<K, V>, done: set<K>, k: K, v: V)
    requires k in done && k in upd && upd[k] == v
    ensures k in Overlay(base, upd, done) && Overlay(base, upd, done)[k] == v
  {
  }

  /** Visiting one more key writes its update, if it has one, and changes nothing else. */
  lemma OverlayStep<K, V>(base: map<K, V>, upd: map<K, V>, done: set<K>, k: K)
    requires k !in done
    ensures k in upd ==> Overlay(base, upd, done + {k}) == Overlay(base, upd, done)[k := upd[k]]
    ensures k !in upd ==> Overlay(base, upd, done + {k}) == Overlay(base, upd, done)
  {
    var a := Overlay(base, upd, done + {k});
    var a0 := Overlay(base, upd, done);
    if k in upd {
      var b := a0[k := upd[k]];
      assert a.Keys == b.Keys;
      forall j | j in a
        ensures a[j] == b[j]
      {
      }
    } else {
      assert (done + {k}) * upd.Keys == done * upd.Keys;
    }
  }

  /**
   * One model's value once the new table's entry for it is applied: an unseen model starts
   * at its new capacity, a known one is shifted by new minus old capacity. (A model with a
   * remaining value always has a configured one while the two tables have the same slots,
   * so there the second case is exactly the unseen model.)
   */
  function RebasedModel(remain: ModelCaps, capacity: ModelCaps, incoming: RawModelCaps, m: string): int
    requires m in incoming
  {
    if m in remain && m in capacity then remain[m] - (capacity[m] - TruncateTowardZero(incoming[m]))
    else TruncateTowardZero(incoming[m])
  }

  /** The new value of every model the new table mentions. */
  function ModelUpdates(remain: ModelCaps, capacity: ModelCaps, incoming: RawModelCaps): (r: ModelCaps)
    ensures r.Keys == incoming.Keys
  {
    map m | m in incoming :: RebasedModel(remain, capacity, incoming, m)
  }

  /**
   * The models of one (uid, provider) after rebasing on new capacities: every model the new
   * table mentions is inserted or shifted, every other keeps its value.
   */
  function RebasedModels(remain: ModelCaps, capacity: ModelCaps, incoming: RawModelCaps): ModelCaps
  {
    Overlay(remain, ModelUpdates(remain, capacity, incoming), incoming.Keys)
  }

  /** The providers whose new model table is non-empty: only those are visited. */
  function NonEmptyProviders(incoming: RawProviderCaps): set<string>
  {
    set p | p in incoming && incoming[p] != map[]
  }

  /** Every model of every remaining provider has a configured capacity. */
  ghost predicate Covered(remain: ProviderCaps, capacity: ProviderCaps)
  {
    forall p :: ModelsOf(remain, p).Keys <= ModelsOf(capacity, p).Keys
  }

  /** Tables with the same slots give every uid covered providers. */
  lemma ProvidersCovered(a: Resources, b: Resources, u: Uid)
    requires SameSlots(a, b)
    ensures Covered(ProvidersOf(a, u), ProvidersOf(b, u))
  {
    forall p
      ensures ModelsOf(ProvidersOf(a, u), p).Keys <= ModelsOf(ProvidersOf(b, u), p).Keys
    {
      ModelsCovered(a, b, u, p);
    }
  }

  /** The rebased models of every provider with a non-empty new table (a missing provider starting empty). */
  function ProviderUpdates(remain: ProviderCaps, capacity: ProviderCaps, incoming: RawProviderCaps): (r: ProviderCaps)
    ensures r.Keys == NonEmptyProviders(incoming)
  {
    map p | p in NonEmptyProviders(incoming) :: RebasedModels(ModelsOf(remain, p), ModelsOf(capacity, p), incoming[p])
  }

  /** The providers of one uid after rebasing: each provider with new models is rebased. */
  function RebasedProviders(remain: ProviderCaps, capacity: ProviderCaps, incoming: RawProviderCaps): ProviderCaps
  {
    Overlay(remain, ProviderUpdates(remain, capacity, incoming), incoming.Keys)
  }

  /** Some provider of a uid's new table has at least one model. */
  predicate HasModels(raw: RawProviderCaps)
  {
    exists p :: p in raw && raw[p] != map[]
  }

  /** The uids the new table changes: a non-None entry with at least one non-empty provider. */
  function TouchedUids(incoming: RawResources): set<Uid>
  {
    set u | u in incoming && incoming[u].Some? && HasModels(incoming[u].value)
  }

  /** The entry of a touched uid after rebasing: its providers rebased on the new ones. */
  function RebasedUid(remain: Resources, capacity: Resources, incoming: RawResources, u: Uid): Option<ProviderCaps>
    requires u in TouchedUids(incoming)
  {
    Some(RebasedProviders(ProvidersOf(remain, u), ProvidersOf(capacity, u), incoming[u].value))
  }

  /** The new entry of every touched uid. */
  function UidUpdates(remain: Resources, capacity: Resources, incoming: RawResources): (r: Resources)
    ensures r.Keys == TouchedUids(incoming)
  {
    map u | u in TouchedUids(incoming) :: RebasedUid(remain, capacity, incoming, u)
  }

  /**
   * The remaining capacities after update_remain_capacity_based_on_new_capacity: every
   * uid the new table touches is rebased (a None entry becoming a table), all others are
   * left as they are.
   */
  function Rebased(remain: Resources, capacity: Resources, incoming: RawResources): Resources
  {
    Overlay(remain, UidUpdates(remain, capacity, incoming), incoming.Keys)
  }

  /** The capacity the new table gives a slot, converted with int(), if it gives one. */
  function NewCap(incoming: RawResources, s: Slot): Option<int>
  {
    if s.uid in incoming && incoming[s.uid].Some? && s.provider in incoming[s.uid].value
       && s.model in incoming[s.uid].value[s.provider]
    then Some(TruncateTowardZero(incoming[s.uid].value[s.provider][s.model]))
    else None
  }

  /**
   * Slot by slot, the rebase inserts an unseen slot at its new capacity, shifts a known
   * one by new minus old capacity so that what was consumed stays consumed, and leaves
   * every slot the new table does not mention as it was.
   */
  lemma RebasedLeaf(remain: Resources, capacity: Resources, incoming: RawResources, s: Slot)
    requires SameSlots(remain, capacity)
    ensures var r := Rebased(remain, capacity, incoming);
      (NewCap(incoming, s).None? ==> Leaf(r, s) == Leaf(remain, s))
      && (NewCap(incoming, s).Some? && Leaf(remain, s).None? ==> Leaf(r, s) == NewCap(incoming, s))
      && (NewCap(incoming, s).Some? && Leaf(remain, s).Some? ==>
            Leaf(capacity, s).Some? && Leaf(r, s).Some?
            && NewCap(incoming, s).value - Leaf(r, s).value == Leaf(capacity, s).value - Leaf(remain, s).value)
  {
    var u, p, m := s.uid, s.provider, s.model;
    assert Leaf(remain, s).Some? ==> Leaf(capacity, s).Some?;
    var m0, c0 := ModelsOf(ProvidersOf(remain, u), p), ModelsOf(ProvidersOf(capacity, u), p);
    RebasedModelsAt(remain, capacity, incoming, u, p);
    if NewCap(incoming, s).Some? {
      assert p in NonEmptyProviders(incoming[u].value);
      assert u in TouchedUids(incoming);
      RebasedModelAt(m0, c0, incoming[u].value[p], m);
    }
  }

  /** The models of one (uid, provider) after the rebase. */
  lemma RebasedModelsAt(remain: Resources, capacity: Resources, incoming: RawResources, u: Uid, p: string)
    ensures ModelsOf(ProvidersOf(Rebased(remain, capacity, incoming), u), p)
      == if u in TouchedUids(incoming) && p in NonEmptyProviders(incoming[u].value)
         then RebasedModels(ModelsOf(ProvidersOf(remain, u), p), ModelsOf(ProvidersOf(capacity, u), p), incoming[u].value[p])
         else ModelsOf(ProvidersOf(remain, u), p)
  {
    RebasedProvidersOf(remain, capacity, incoming, u);
    if u in TouchedUids(incoming) {
      RebasedModelsOf(ProvidersOf(remain, u), ProvidersOf(capacity, u), incoming[u].value, p);
    }
  }

  /** At the uid level: a touched uid gets its rebased providers, any other keeps its own. */
  lemma RebasedProvidersOf(remain: Resources, capacity: Resources, incoming: RawResources, u: Uid)
    ensures u in TouchedUids(incoming) ==>
      ProvidersOf(Rebased(remain, capacity, incoming), u)
         == RebasedProviders(ProvidersOf(remain, u), ProvidersOf(capacity, u), incoming[u].value)
    ensures u !in TouchedUids(incoming) ==>
      ProvidersOf(Rebased(remain, capacity, incoming), u) == ProvidersOf(remain, u)
  {
    if u in TouchedUids(incoming) {
      RebasedTouched(remain, capacity, incoming, u, incoming[u].value);
    } else {
      RebasedUntouched(remain, capacity, incoming, u);
    }
  }

  lemma RebasedTouched(remain: Resources, capacity: Resources, incoming: RawResources, u: Uid, raw: RawProviderCaps)
    requires u in TouchedUids(incoming) && incoming[u] == Some(raw)
    ensures ProvidersOf(Rebased(remain, capacity, incoming), u)
         == RebasedProviders(ProvidersOf(remain, u), ProvidersOf(capacity, u), raw)
  {
    UidUpdateAt(remain, capacity, incoming, u);
    OverlayProviders(remain, UidUpdates(remain, capacity, incoming), incoming.Keys, u,
                     RebasedProviders(ProvidersOf(remain, u), ProvidersOf(capacity, u), raw));
  }

  /** The providers of a visited uid whose update is a table. */
  lemma OverlayProviders(base: Resources, upd: Resources, done: set<Uid>, u: Uid, v: ProviderCaps)
    requires u in done && u in upd && upd[u] == Some(v)
    ensures ProvidersOf(Overlay(base, upd, done), u) == v
  {
  }

  lemma UidUpdateAt(remain: Resources, capacity: Resources, incoming: RawResources, u: Uid)
    requires u in TouchedUids(incoming)
    ensures u in UidUpdates(remain, capacity, incoming)
    ensures UidUpdates(remain, capacity, incoming)[u]
         == Some(RebasedProviders(ProvidersOf(remain, u), ProvidersOf(capacity, u), incoming[u].value))
  {
  }

  lemma RebasedUntouched(remain: Resources, capacity: Resources, incoming: RawResources, u: Uid)
    requires u !in TouchedUids(incoming)
    ensures ProvidersOf(Rebased(remain, capacity, incoming), u) == ProvidersOf(remain, u)
  {
    var upd := UidUpdates(remain, capacity, incoming);
    OverlayAt(remain, upd, incoming.Keys, u);
  }

  /** At the provider level: a provider with new models gets them rebased, any other keeps its own. */
  lemma RebasedModelsOf(remain: ProviderCaps, capacity: ProviderCaps, incoming: RawProviderCaps, p: string)
    ensures p in NonEmptyProviders(incoming) ==>
      ModelsOf(RebasedProviders(remain, capacity, incoming), p)
      == RebasedModels(ModelsOf(remain, p), ModelsOf(capacity, p), incoming[p])
    ensures p !in NonEmptyProviders(incoming) ==>
      ModelsOf(RebasedProviders(remain, capacity, incoming), p) == ModelsOf(remain, p)
  {
    var upd := ProviderUpdates(remain, capacity, incoming);
    var r := RebasedProviders(remain, capacity, incoming);
    OverlayAt(remain, upd, incoming.Keys, p);
    if p in NonEmptyProviders(incoming) {
      assert upd[p] == RebasedModels(ModelsOf(remain, p), ModelsOf(capacity, p), incoming[p]);
      assert ModelsOf(r, p) == r[p];
    } else if p in remain {
      assert r[p] == remain[p];
    } else {
      assert p !in r;
    }
  }

  /** At the model level: a new model is inserted, a known one shifted, any other kept. */
  lemma RebasedModelAt(remain: ModelCaps, capacity: ModelCaps, incoming: RawModelCaps, m: string)
    ensures var r := RebasedModels(remain, capacity, incoming);
      (m in r <==> m in remain || m in incoming)
      && (m !in incoming && m in remain ==> r[m] == remain[m])
      && (m in incoming && m !in remain ==> r[m] == TruncateTowardZero(incoming[m]))
      && (m in incoming && m in remain && m in capacity ==> TruncateTowardZero(incoming[m]) - r[m] == capacity[m] - remain[m])
  {
  }

  /**
   * The loop over the uids of the new table: every uid with new capacities has its providers
   * rebased, the result stored back only when some provider had models to apply.
   */
  method RebaseUids(remain: Resources, capacity: Resources, incoming: RawResources) returns (r: Resources)
    requires SameSlots(remain, capacity)
    ensures r == Rebased(remain, capacity, incoming)
  {
    ghost var upd := UidUpdates(remain, capacity, incoming);
    r := remain;
    var uids := incoming.Keys;
    ghost var done: set<Uid> := {};
    OverlayNone(remain, upd);
    while uids != {}
      invariant done + uids == incoming.Keys && done !! uids
      invariant r == Overlay(remain, upd, done)
      decreases uids
    {
      var uid := Pick(uids);
      UidStep(remain, capacity, incoming, done, uid);
      MoveOne(done, uids, incoming.Keys, uid);
      uids := uids - {uid};
      done := done + {uid};
      var entry := incoming[uid];
      if entry.None? || entry.value == map[] {
        continue;
      }
      ProvidersCovered(remain, capacity, uid);
      var providers := RebaseProviders(ProvidersOf(r, uid), ProvidersOf(capacity, uid), entry.value);
      // the nested levels exist only once some model has been written
      if HasModels(entry.value) {
        r := r[uid := Some(providers)];
      }
    }
  }

  /** One uid of the loop: it still holds its old providers, and is then rebased if touched. */
  lemma UidStep(remain: Resources, capacity: Resources, incoming: RawResources, done: set<Uid>, u: Uid)
    requires u in incoming && u !in done
    ensures var upd := UidUpdates(remain, capacity, incoming);
      ProvidersOf(Overlay(remain, upd, done), u) == ProvidersOf(remain, u)
      && (u in TouchedUids(incoming) <==>
            incoming[u].Some? && incoming[u].value != map[] && HasModels(incoming[u].value))
      && (u in TouchedUids(incoming) ==>
            Overlay(remain, upd, done + {u})
            == Overlay(remain, upd, done)[u := Some(RebasedProviders(ProvidersOf(remain, u), ProvidersOf(capacity, u), incoming[u].value))])
      && (u !in TouchedUids(incoming) ==> Overlay(remain, upd, done + {u}) == Overlay(remain, upd, done))
  {
    var upd := UidUpdates(remain, capacity, incoming);
    OverlayAt(remain, upd, done, u);
    OverlayStep(remain, upd, done, u);
    if u in TouchedUids(incoming) {
      UidUpdateAt(remain, capacity, incoming, u);
    }
    if incoming[u].Some? && incoming[u].value == map[] {
      assert NonEmptyProviders(incoming[u].value) == {};
    }
  }

  /**
   * The loops over the providers and models of one uid: each provider with new models is
   * rebased, in a copy that the caller stores back.
   */
  method RebaseProviders(remain: ProviderCaps, capacity: ProviderCaps, incoming: RawProviderCaps)
    returns (providers: ProviderCaps)
    requires Covered(remain, capacity)
    ensures providers == RebasedProviders(remain, capacity, incoming)
  {
    ghost var upd := ProviderUpdates(remain, capacity, incoming);
    providers := remain;
    var names := incoming.Keys;
    ghost var done: set<string> := {};
    OverlayNone(remain, upd);
    while names != {}
      invariant done + names == incoming.Keys && done !! names
      invariant providers == Overlay(remain, upd, done)
      decreases names
    {
      var provider :| provider in names;
      ProviderStep(remain, capacity, incoming, done, provider);
      MoveOne(done, names, incoming.Keys, provider);
      names := names - {provider};
      done := done + {provider};
      providers := RebaseProvider(remain, capacity, incoming, provider, providers);
    }
  }

  /** One pass of the provider loop: a non-empty model table is applied, an empty one skipped. */
  method RebaseProvider(remain: ProviderCaps, capacity: ProviderCaps, incoming: RawProviderCaps, p: string,
                        providers: ProviderCaps) returns (r: ProviderCaps)
    requires Covered(remain, capacity) && p in incoming
    ensures incoming[p] == map[] ==> r == providers
    ensures incoming[p] != map[] ==>
      r == providers[p := RebasedModels(ModelsOf(remain, p), ModelsOf(capacity, p), incoming[p])]
  {
    if incoming[p] == map[] {
      return providers;
    }
    var models := RebaseModels(ModelsOf(remain, p), ModelsOf(capacity, p), incoming[p]);
    r := providers[p := models];
  }

  /** One provider of the loop: it is rebased when its new model table is non-empty. */
  lemma ProviderStep(remain: ProviderCaps, capacity: ProviderCaps, incoming: RawProviderCaps, done: set<string>, p: string)
    requires p in incoming && p !in done
    ensures var upd := ProviderUpdates(remain, capacity, incoming);
      (incoming[p] != map[] ==>
         Overlay(remain, upd, done + {p})
         == Overlay(remain, upd, done)[p := RebasedModels(ModelsOf(remain, p), ModelsOf(capacity, p), incoming[p])])
      && (incoming[p] == map[] ==> Overlay(remain, upd, done + {p}) == Overlay(remain, upd, done))
  {
    var upd := ProviderUpdates(remain, capacity, incoming);
    OverlayStep(remain, upd, done, p);
    if incoming[p] != map[] {
      assert p in NonEmptyProviders(incoming);
    }
  }

  /** The innermost loop: each new model is inserted or shifted. */
  method RebaseModels(remain: ModelCaps, capacity: ModelCaps, incoming: RawModelCaps) returns (models: ModelCaps)
    requires remain.Keys <= capacity.Keys
    ensures models == RebasedModels(remain, capacity, incoming)
  {
    ghost var upd := ModelUpdates(remain, capacity, incoming);
    models := remain;
    var names := incoming.Keys;
    ghost var done: set<string> := {};
    OverlayNone(remain, upd);
    while names != {}
      invariant done + names == incoming.Keys && done !! names
      invariant models == Overlay(remain, upd, done)
      decreases names
    {
      var model :| model in names;
      OverlayStep(remain, upd, done, model);
      MoveOne(done, names, incoming.Keys, model);
      names := names - {model};
      done := done + {model};
      var cap := TruncateTowardZero(incoming[model]);
      if model !in remain {
        models := models[model := cap];
      } else {
        var diff := capacity[model] - cap;
        models := models[model := models[model] - diff];
      }
    }
  }

  /** The result of choose_miner. */
  datatype Choice = Chosen(uid: Uid) | NoneAvailable | ProviderMissing

  /** A uid can take a query for (provider, model): its remaining bandwidth is positive. */
  predicate Available(r: Resources, u: Uid, provider: string, model: string)
  {
    var b := Leaf(r, Slot(u, provider, model));
    b.Some? && b.value > 0
  }

  /** A uid entry the lookup of `provider` fails on: a dict without that provider. */
  predicate LacksProvider(r: Resources, u: Uid, provider: string)
  {
    u in r && r[u].Some? && provider !in r[u].value
  }

  /**
   * The loop of choose_miner over the uid entries: whether the lookup of `provider` fails
   * on some entry and, when it does not, the uids with positive bandwidth for the model.
   */
  method ScanUids(remain: Resources, provider: string, model: string) returns (missing: bool, available: set<Uid>)
    ensures missing <==> exists u :: LacksProvider(remain, u, provider)
    ensures !missing ==> forall u :: u in available <==> Available(remain, u, provider, model)
  {
    var todo := remain.Keys;
    available := {};
    while todo != {}
      invariant todo <= remain.Keys
      invariant forall u :: u in remain && u !in todo ==> !LacksProvider(remain, u, provider)
      invariant forall u :: u in available <==> u in remain && u !in todo && Available(remain, u, provider, model)
      decreases todo
    {
      var uid := Pick(todo);
      todo := todo - {uid};
      var capacity := remain[uid];
      if capacity.None? {
        continue;
      }
      if provider !in capacity.value {
        assert LacksProvider(remain, uid, provider);
        return true, available;
      }
      var models := capacity.value[provider];
      if model in models && models[model] > 0 {
        available := available + {uid};
      }
    }
    missing := false;
  }

  class TaskMgr {
    var remainResources: Resources
    var uidToCapacity: Resources

    /** Remaining and configured capacities have values at the same slots. */
    ghost predicate Valid()
      reads this
    {
      SameSlots(remainResources, uidToCapacity)
    }

    /** Both tables are int()-converted copies of the given capacities. */
    constructor(uidToCapacities: RawResources)
      ensures Valid()
      ensures remainResources == Coerce(uidToCapacities) && uidToCapacity == Coerce(uidToCapacities)
    {
      remainResources := Coerce(uidToCapacities);
      uidToCapacity := Coerce(uidToCapacities);
    }

    /** restore_capacities_for_all_miners: the remaining capacities are reset to the configured ones. */
    method RestoreCapacitiesForAllMiners()
      requires Valid()
      modifies this
      ensures Valid()
      ensures remainResources == old(uidToCapacity) && uidToCapacity == old(uidToCapacity)
    {
      remainResources := uidToCapacity;
    }

    /**
     * get_remaining_bandwidth: remain[uid][provider][model] when the uid and provider
     * entries exist and are non-empty (Python truthiness), None otherwise.
     */
    function GetRemainingBandwidth(uid: Uid, provider: string, model: string): (b: Option<int>)
      reads this
      ensures b == Leaf(remainResources, Slot(uid, provider, model))
    {
      if uid in remainResources && remainResources[uid].Some? && remainResources[uid].value != map[] then
        var providers := remainResources[uid].value;
        if provider in providers && providers[provider] != map[] then
          var models := providers[provider];
          if model in models then Some(models[model]) else None
        else None
      else None
    }

    /**
     * update_remain_capacity_based_on_new_capacity: the remaining capacities are rebased on
     * the new ones (Rebased) and the configured capacities become a copy of the result.
     */
    method UpdateRemainCapacityBasedOnNewCapacity(newUidToCapacity: RawResources)
      requires Valid()
      modifies this
      ensures Valid()
      ensures remainResources == Rebased(old(remainResources), old(uidToCapacity), newUidToCapacity)
      ensures uidToCapacity == remainResources
    {
      var rebased := RebaseUids(remainResources, uidToCapacity, newUidToCapacity);
      remainResources := rebased;
      uidToCapacity := rebased;
    }

    /**
     * choose_miner: fails (and changes nothing) when some uid entry lacks the provider;
     * otherwise picks any uid with positive bandwidth for (provider, model) and takes one
     * slot from it, or answers NoneAvailable and changes nothing.
     */
    method ChooseMiner(provider: string, model: string) returns (r: Choice)
      requires Valid()
      modifies this
      ensures Valid()
      ensures uidToCapacity == old(uidToCapacity)
      ensures r.ProviderMissing? <==> exists u :: LacksProvider(old(remainResources), u, provider)
      ensures r.NoneAvailable? <==>
        (forall u :: !LacksProvider(old(remainResources), u, provider))
        && forall u :: !Available(old(remainResources), u, provider, model)
      ensures !r.Chosen? ==> remainResources == old(remainResources)
      ensures r.Chosen? ==>
        Available(old(remainResources), r.uid, provider, model)
        && remainResources == SetLeaf(old(remainResources), Slot(r.uid, provider, model),
                                      Leaf(old(remainResources), Slot(r.uid, provider, model)).value - 1)
    {
      var missing, available := ScanUids(remainResources, provider, model);
      if missing {
        return ProviderMissing;
      }
      if available == {} {
        forall u
          ensures !Available(remainResources, u, provider, model)
        {
          assert u !in available;
        }
        return NoneAvailable;
      }
      var uid := Pick(available);
      var slot := Slot(uid, provider, model);
      SetExistingLeaf(remainResources, slot, remainResources[uid].value[provider][model] - 1);
      remainResources := SetLeaf(remainResources, slot, remainResources[uid].value[provider][model] - 1);
      return Chosen(uid);
    }

    /**
     * assign_task: the chosen uid, or None when nothing is available or the lookup failed
     * (the failure is caught by the error handler around it).
     */
    method AssignTask(provider: string, model: string) returns (uid: Option<Uid>)
      requires Valid()
      modifies this
      ensures Valid()
      ensures uidToCapacity == old(uidToCapacity)
      ensures uid.Some? ==>
        Available(old(remainResources), uid.value, provider, model)
        && remainResources == SetLeaf(old(remainResources), Slot(uid.value, provider, model),
                                      Leaf(old(remainResources), Slot(uid.value, provider, model)).value - 1)
      ensures uid.None? ==> remainResources == old(remainResources)
      ensures uid.None? <==>
        (exists u :: LacksProvider(old(remainResources), u, provider))
        || forall u :: !Available(old(remainResources), u, provider, model)
    {
      var choice := ChooseMiner(provider, model);
      if choice.Chosen? {
        return Some(choice.uid);
      }
      return None;
    }
  }

  /**
   * Taking one query from an available uid lowers exactly that slot by one, to a value
   * that is not negative, and leaves every uid and every other slot as it was.
   */
  lemma TakeOneSlot(r: Resources, u: Uid, provider: string, model: string)
    requires Available(r, u, provider, model)
    ensures var s := Slot(u, provider, model);
      var r' := SetLeaf(r, s, Leaf(r, s).value - 1);
      r'.Keys == r.Keys && SameSlots(r', r)
      && Leaf(r', s).value == Leaf(r, s).value - 1 >= 0
      && (forall t :: t != s ==> Leaf(r', t) == Leaf(r, t))
  {
    var s := Slot(u, provider, model);
    SetExistingLeaf(r, s, Leaf(r, s).value - 1);
  }
}
