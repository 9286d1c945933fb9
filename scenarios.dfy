/** `_ScenarioManager` (taipy/core/scenario/_scenario_manager.py): creates
    scenarios and stores them, elects the master of each cycle, moves tags
    within a cycle, registers subscribers, submits and deletes scenarios
    with their pipelines, and compares scenarios of one configuration.
    The repository is the map `store`; the pipeline manager's submissions
    and hard deletions are recorded in `submissions` and `deletions`. */
module Scenarios {
  import opened Common
  import opened Calendar
  import opened Cycles
  import opened ScenarioStore

  /** One `_PipelineManager._submit(pipeline, callbacks=..., force=...)` call. */
  datatype Submission = Submission(pipelineKey: string, pipeline: EntityId, callbacks: seq<BoundCallback>, force: bool)

  /** One `_PipelineManager._hard_delete(pipeline.id, scenario.id)` call. */
  datatype PipelineDeletion = PipelineDeletion(pipelineKey: string, pipeline: EntityId, scenario: EntityId)

  /** `__get_status_notifier_callbacks`: every subscriber bound to the scenario. */
  function BoundCallbacks(s: Scenario): (r: seq<BoundCallback>)
    ensures |r| == |s.subscribers|
    ensures forall b :: b in r <==> b.scenario == s.id && b.callback in s.subscribers
  {
    var r := seq(|s.subscribers|, i requires 0 <= i < |s.subscribers| => BoundCallback(s.subscribers[i], s.id));
    assert forall b: BoundCallback :: b.scenario == s.id && b.callback in s.subscribers ==> b in r by {
      forall b: BoundCallback | b.scenario == s.id && b.callback in s.subscribers ensures b in r {
        var i :| 0 <= i < |s.subscribers| && s.subscribers[i] == b.callback;
        assert r[i] == b;
      }
    }
    r
  }

  /** `added` submits every pipeline of `s` exactly once, with the given
      callbacks and flag. */
  predicate SubmitsEachOnce(added: seq<Submission>, s: Scenario, callbacks: seq<BoundCallback>, force: bool)
  {
    && (forall i :: 0 <= i < |added| ==>
          added[i].pipelineKey in s.pipelines
          && added[i] == Submission(added[i].pipelineKey, s.pipelines[added[i].pipelineKey].id, callbacks, force))
    && (forall i, j :: 0 <= i < j < |added| ==> added[i].pipelineKey != added[j].pipelineKey)
    && (forall key :: key in s.pipelines ==> exists i :: 0 <= i < |added| && added[i].pipelineKey == key)
  }

  /** `added` hard-deletes exactly the pipelines of `s` that `Cascades`
      selects, each once. */
  predicate DeletesCascadedOnce(added: seq<PipelineDeletion>, s: Scenario)
  {
    && (forall i :: 0 <= i < |added| ==>
          added[i].pipelineKey in s.pipelines && Cascades(s, s.pipelines[added[i].pipelineKey])
          && added[i] == PipelineDeletion(added[i].pipelineKey, s.pipelines[added[i].pipelineKey].id, s.id))
    && (forall i, j :: 0 <= i < j < |added| ==> added[i].pipelineKey != added[j].pipelineKey)
    && (forall key :: key in s.pipelines && Cascades(s, s.pipelines[key]) ==>
          exists i :: 0 <= i < |added| && added[i].pipelineKey == key)
  }

  /** The scan behind every query: the stored scenarios satisfying `p`,
      each once. */
  method Select(store: Store, p: Scenario -> bool) returns (r: seq<Scenario>)
    requires KeysMatch(store)
    ensures forall s :: s in r <==> s.id in store && store[s.id] == s && p(s)
    ensures forall i, j :: 0 <= i < j < |r| ==> r[i].id != r[j].id
  {
    r := [];
    var remaining := store.Keys;
    while remaining != {}
      invariant remaining <= store.Keys
      invariant forall s :: s in r <==> s.id in store && s.id !in remaining && store[s.id] == s && p(s)
      invariant forall i, j :: 0 <= i < j < |r| ==> r[i].id != r[j].id
      decreases |remaining|
    {
      var k :| k in remaining;
      if p(store[k]) {
        r := r + [store[k]];
      }
      remaining := remaining - {k};
    }
  }

  /** The cycle store after line 72 of `_create`: unchanged and no cycle
      without a frequency; otherwise unchanged when the bucket of the
      instant is stored, with the first stored cycle of that bucket as the
      scenario's cycle, and else one fresh cycle appended and used. */
  predicate GotOrCreated(before: seq<Cycle>, after: seq<Cycle>, frequency: Option<Frequency>, instant: DateTime,
                         cycle: Option<EntityId>)
  {
    && ValidDateTime(instant)
    && (frequency.None? ==> after == before && cycle.None?)
    && (frequency.Some? ==>
          var found := FirstInBucket(before, frequency.value, StartOfCycle(frequency.value, instant));
          && (found.Some? ==> after == before && cycle == Some(before[found.value].id))
          && (found.None? ==>
                && |after| == |before| + 1 && after == before + [after[|before|]]
                && cycle == Some(after[|before|].id)
                && (forall i :: 0 <= i < |before| ==> before[i].id != after[|before|].id)))
  }

  class ScenarioManager {
    var store: Store
    const cycleManager: CycleManager
    /** Serial of the next fresh scenario id (stands for the uuid part). */
    var nextSerial: nat
    var submissions: seq<Submission>
    var deletions: seq<PipelineDeletion>

    ghost predicate Valid()
      reads this, cycleManager
    {
      && cycleManager.Valid() && cycleManager.OneCyclePerBucket()
      && Invariant(store)
      && (forall k :: k in store ==> k.serial < nextSerial)
    }

    constructor (cycleManager: CycleManager)
      requires cycleManager.Valid() && cycleManager.OneCyclePerBucket()
      ensures Valid() && this.cycleManager == cycleManager
      ensures store == map[] && submissions == [] && deletions == []
    {
      this.cycleManager := cycleManager;
      store := map[];
      nextSerial := 0;
      submissions := [];
      deletions := [];
    }

    /** `_get_all_by_cycle`. */
    method GetAllByCycle(c: EntityId) returns (r: seq<Scenario>)
      requires KeysMatch(store)
      ensures forall s :: s in r <==> s.id in store && store[s.id] == s && InCycle(s, c)
      ensures forall i, j :: 0 <= i < j < |r| ==> r[i].id != r[j].id
    {
      r := Select(store, (s: Scenario) => InCycle(s, c));
    }

    /** `_get_all_by_tag`. */
    method GetAllByTag(tag: string) returns (r: seq<Scenario>)
      requires KeysMatch(store)
      ensures forall s :: s in r <==> s.id in store && store[s.id] == s && tag in s.tags
      ensures forall i, j :: 0 <= i < j < |r| ==> r[i].id != r[j].id
    {
      r := Select(store, (s: Scenario) => tag in s.tags);
    }

    /** `_get_all_masters`. */
    method GetAllMasters() returns (r: seq<Scenario>)
      requires KeysMatch(store)
      ensures forall s :: s in r <==> s.id in store && store[s.id] == s && s.isMaster
      ensures forall i, j :: 0 <= i < j < |r| ==> r[i].id != r[j].id
    {
      r := Select(store, (s: Scenario) => s.isMaster);
    }

    /** `_get_all_by_config_id`. */
    method GetAllByConfigId(configId: string) returns (r: seq<Scenario>)
      requires KeysMatch(store)
      ensures forall s :: s in r <==> s.id in store && store[s.id] == s && s.configId == configId
      ensures forall i, j :: 0 <= i < j < |r| ==> r[i].id != r[j].id
    {
      r := Select(store, (s: Scenario) => s.configId == configId);
    }

    /** `_get_master`: the master of the cycle, which is its only master. */
    method GetMaster(c: EntityId) returns (r: Option<Scenario>)
      requires Invariant(store)
      ensures r.Some? ==> r.value.id in store && store[r.value.id] == r.value && r.value.isMaster && InCycle(r.value, c)
      ensures r.Some? ==> forall k :: k in store && store[k].isMaster && InCycle(store[k], c) ==> k == r.value.id
      ensures r.None? <==> forall k :: k in store ==> !(store[k].isMaster && InCycle(store[k], c))
    {
      var inCycle := GetAllByCycle(c);
      var i := 0;
      while i < |inCycle|
        invariant 0 <= i <= |inCycle|
        invariant forall j :: 0 <= j < i ==> !inCycle[j].isMaster
      {
        if inCycle[i].isMaster {
          return Some(inCycle[i]);
        }
        i := i + 1;
      }
      r := None;
      assert forall k :: k in store && store[k].isMaster && InCycle(store[k], c) ==> store[k] in inCycle;
    }

    /** `_get_by_tag`: the scenario of the cycle holding the tag, which is
        its only holder. */
    method GetByTag(c: EntityId, tag: string) returns (r: Option<Scenario>)
      requires Invariant(store)
      ensures r.Some? ==> r.value.id in store && store[r.value.id] == r.value && tag in r.value.tags && InCycle(r.value, c)
      ensures r.Some? ==> forall k :: k in store && tag in store[k].tags && InCycle(store[k], c) ==> k == r.value.id
      ensures r.None? <==> forall k :: k in store ==> !(tag in store[k].tags && InCycle(store[k], c))
    {
      var inCycle := GetAllByCycle(c);
      var i := 0;
      while i < |inCycle|
        invariant 0 <= i <= |inCycle|
        invariant forall j :: 0 <= j < i ==> tag !in inCycle[j].tags
      {
        if tag in inCycle[i].tags {
          return Some(inCycle[i]);
        }
        i := i + 1;
      }
      r := None;
      assert forall k :: k in store && tag in store[k].tags && InCycle(store[k], c) ==> store[k] in inCycle;
    }

    /** `_create`: a fresh id, the pipelines of the configuration scoped to
        it, the cycle of the creation instant when the configuration has a
        frequency, and the master flag exactly when that cycle holds no
        stored scenario yet. */
    method Create(config: ScenarioConfig, creationDate: Option<DateTime>, now: DateTime, displayName: Option<string>,
                  pipelineOf: (string, EntityId) -> Pipeline)
      returns (s: Scenario)
      requires Valid() && ValidDateTime(now)
      requires creationDate.Some? ==> ValidDateTime(creationDate.value)
      modifies this`store, this`nextSerial, cycleManager
      ensures Valid()
      ensures s.id !in old(store) && store == old(store)[s.id := s]
      ensures s.isMaster <==> s.cycle.Some? && forall k :: k in old(store) ==> old(store)[k].cycle != s.cycle
      ensures s.cycle.Some? <==> config.frequency.Some?
      ensures GotOrCreated(old(cycleManager.cycles), cycleManager.cycles, config.frequency,
                           CreationInstant(creationDate, now), s.cycle)
      ensures config.frequency.Some? ==>
        exists c :: c in cycleManager.cycles && s.cycle == Some(c.id)
          && InBucket(c, config.frequency.value, StartOfCycle(config.frequency.value, CreationInstant(creationDate, now)))
      ensures s.configId == config.id && s.authorizedTags == config.authorizedTags
      ensures s.pipelines == map pc | pc in config.pipelineConfigs :: pipelineOf(pc, s.id)
      ensures s.properties == if Truthy(displayName) then config.properties[DisplayNameKey := displayName.value]
                              else config.properties
      ensures s.creationDate == CreationInstant(creationDate, now) && s.tags == {} && s.subscribers == []
    {
      var cycle, isMaster := CycleOfNew(config.frequency, creationDate, now);
      ghost var cycles := cycleManager.cycles;
      s := StoreNew(config, CreationInstant(creationDate, now), displayName, pipelineOf, cycle, isMaster);
      assert cycleManager.cycles == cycles;
    }

    /** The rest of `_create` once the cycle and the master flag are known:
        the scenario under the next serial, with the pipelines of the
        configuration scoped to it and the display name added to a copy of
        the configuration's properties, saved. */
    method StoreNew(config: ScenarioConfig, creation: DateTime, displayName: Option<string>,
                    pipelineOf: (string, EntityId) -> Pipeline, cycle: Option<EntityId>, isMaster: bool)
      returns (s: Scenario)
      requires Valid()
      requires isMaster <==> cycle.Some? && forall k :: k in store ==> store[k].cycle != cycle
      modifies this`store, this`nextSerial
      ensures Valid()
      ensures s.id !in old(store) && store == old(store)[s.id := s]
      ensures s.isMaster == isMaster && s.cycle == cycle
      ensures s.configId == config.id && s.authorizedTags == config.authorizedTags
      ensures s.pipelines == map pc | pc in config.pipelineConfigs :: pipelineOf(pc, s.id)
      ensures s.properties == if Truthy(displayName) then config.properties[DisplayNameKey := displayName.value]
                              else config.properties
      ensures s.creationDate == creation && s.tags == {} && s.subscribers == []
    {
      var id := EntityId("SCENARIO", config.id, nextSerial);
      assert id !in store;
      var pipelines := map pc | pc in config.pipelineConfigs :: pipelineOf(pc, id);
      var props := config.properties;
      if Truthy(displayName) {
        props := props[DisplayNameKey := displayName.value];
      }
      s := Scenario(id, config.id, pipelines, props, config.authorizedTags, creation, isMaster, cycle, {}, []);
      CreateKeeps(store, s);
      store := store[id := s];
      nextSerial := nextSerial + 1;
    }

    /** Lines 72-73 of `_create`: the cycle of the creation instant, got or
        created, and whether the new scenario is its master, that is,
        whether no stored scenario is in that cycle yet. */
    method CycleOfNew(frequency: Option<Frequency>, creationDate: Option<DateTime>, now: DateTime)
      returns (cycle: Option<EntityId>, isMaster: bool)
      requires Valid() && ValidDateTime(now)
      requires creationDate.Some? ==> ValidDateTime(creationDate.value)
      modifies cycleManager
      ensures Valid()
      ensures cycle.Some? <==> frequency.Some?
      ensures GotOrCreated(old(cycleManager.cycles), cycleManager.cycles, frequency, CreationInstant(creationDate, now), cycle)
      ensures isMaster <==> cycle.Some? && forall k :: k in store ==> store[k].cycle != cycle
      ensures frequency.Some? ==>
        exists c :: c in cycleManager.cycles && cycle == Some(c.id)
          && InBucket(c, frequency.value, StartOfCycle(frequency.value, CreationInstant(creationDate, now)))
    {
      if frequency.None? {
        return None, false;
      }
      var c := cycleManager.GetOrCreate(frequency.value, creationDate, now, None);
      cycle := Some(c.id);
      var inCycle := GetAllByCycle(c.id);
      isMaster := |inCycle| == 0;
      if !isMaster {
        assert inCycle[0] in inCycle;
      }
    }

    /** `_set_master`: rejected for a scenario without a cycle; otherwise
        the current master of the cycle is unflagged and the scenario
        flagged. */
    method SetMaster(sid: EntityId) returns (r: Result<(), ScenarioError>)
      requires Valid() && sid in store
      modifies this`store
      ensures Valid()
      ensures r.Failure? <==> old(store)[sid].cycle.None?
      ensures r.Failure? ==> r.error == DoesNotBelongToACycle && store == old(store)
      ensures r.Success? ==> store == Promoted(old(store), sid)
    {
      var s := store[sid];
      if s.cycle.None? {
        return Failure(DoesNotBelongToACycle);
      }
      var master := GetMaster(s.cycle.value);
      ghost var before := store;
      DemoteThenPromote(before, sid, master);
      SetMasterElects(before, sid);
      if master.Some? {
        store := store[master.value.id := master.value.(isMaster := false)];
      }
      store := store[sid := store[sid].(isMaster := true)];
      r := Success(());
    }

    /** `_tag`: rejected when the scenario's authorized tags are non-empty
        and lack the tag; otherwise the tag leaves the scenario of the same
        cycle that held it and is added to this one. */
    method Tag(sid: EntityId, tag: string) returns (r: Result<(), ScenarioError>)
      requires Valid() && sid in store
      modifies this`store
      ensures Valid()
      ensures r.Failure? <==> !TagAuthorized(old(store)[sid], tag)
      ensures r.Failure? ==> r.error == UnauthorizedTagError(tag, old(store)[sid].configId) && store == old(store)
      ensures r.Success? ==> store == Tagged(old(store), sid, tag)
    {
      var s := store[sid];
      if !TagAuthorized(s, tag) {
        return Failure(UnauthorizedTagError(tag, s.configId));
      }
      var holder := HolderInCycle(sid, tag);
      MoveTag(store, sid, tag, holder);
      TagKeeps(store, sid, tag);
      var updated := store;
      if holder.Some? {
        updated := updated[holder.value.id := holder.value.(tags := holder.value.tags - {tag})];
      }
      updated := updated[sid := updated[sid].(tags := updated[sid].tags + {tag})];
      store := updated;
      r := Success(());
    }

    /** Lines 160-162 of `_tag`: the scenario of the same cycle holding
        the tag, if the scenario has a cycle. */
    method HolderInCycle(sid: EntityId, tag: string) returns (holder: Option<Scenario>)
      requires Invariant(store) && sid in store
      ensures store[sid].cycle.None? ==> holder.None?
      ensures holder.Some? ==>
        (holder.value.id in store && store[holder.value.id] == holder.value
         && tag in holder.value.tags && holder.value.cycle == store[sid].cycle)
      ensures store[sid].cycle.Some? && holder.None? ==>
        forall k :: k in store ==> !(tag in store[k].tags && store[k].cycle == store[sid].cycle)
    {
      holder := None;
      if store[sid].cycle.Some? {
        holder := GetByTag(store[sid].cycle.value, tag);
      }
    }

    /** `_untag`. */
    method Untag(sid: EntityId, tag: string)
      requires Valid() && sid in store
      modifies this`store
      ensures Valid()
      ensures store == Untagged(old(store), sid, tag)
    {
      UntagKeeps(store, sid, tag);
      store := store[sid := store[sid].(tags := store[sid].tags - {tag})];
    }

    /** `_subscribe` (`add`) and `_unsubscribe`: the named scenario, or
        every stored one, one after the other. */
    method ChangeSubscription(cb: Callback, add: bool, target: Option<EntityId>)
      requires Valid() && (target.Some? ==> target.value in store)
      modifies this`store
      ensures Valid()
      ensures store == Subscribed(old(store), cb, add, target)
    {
      ghost var before := store;
      if target.Some? {
        ChangeOneSubscription(cb, add, target.value);
      } else {
        ChangeEverySubscription(cb, add);
      }
      SubscriptionKeeps(before, cb, add, target);
    }

    /** `_subscribe` and `_unsubscribe` on the scenario `k` alone. */
    method ChangeOneSubscription(cb: Callback, add: bool, k: EntityId)
      requires k in store
      modifies this`store
      ensures store == Subscribed(old(store), cb, add, Some(k))
    {
      store := store[k := ChangeSubscriber(store[k], cb, add)];
    }

    /** The loop over `_get_all()` of `_subscribe` and `_unsubscribe`. */
    method ChangeEverySubscription(cb: Callback, add: bool)
      modifies this`store
      ensures store == Subscribed(old(store), cb, add, None)
    {
      var changed := store;
      var remaining := store.Keys;
      while remaining != {}
        invariant remaining <= store.Keys && changed.Keys == store.Keys
        invariant forall k :: k in remaining ==> changed[k] == store[k]
        invariant forall k :: k in store && k !in remaining ==> changed[k] == ChangeSubscriber(store[k], cb, add)
        decreases remaining
      {
        var k :| k in remaining;
        changed := changed[k := ChangeSubscriber(changed[k], cb, add)];
        remaining := remaining - {k};
      }
      SubscribedEvery(store, changed, cb, add);
      store := changed;
    }

    method Subscribe(cb: Callback, target: Option<EntityId>)
      requires Valid() && (target.Some? ==> target.value in store)
      modifies this`store
      ensures Valid()
      ensures store == Subscribed(old(store), cb, true, target)
    {
      ChangeSubscription(cb, true, target);
    }

    method Unsubscribe(cb: Callback, target: Option<EntityId>)
      requires Valid() && (target.Some? ==> target.value in store)
      modifies this`store
      ensures Valid()
      ensures store == Subscribed(old(store), cb, false, target)
    {
      ChangeSubscription(cb, false, target);
    }

    /** `_submit`: rejected for an id the repository does not hold;
        otherwise every pipeline of the scenario is submitted once with the
        scenario's bound subscribers. */
    method Submit(sid: EntityId, force: bool) returns (r: Result<(), ScenarioError>)
      modifies this`submissions
      ensures r.Failure? <==> sid !in store
      ensures r.Failure? ==> r.error == NonExistingScenario(sid) && submissions == old(submissions)
      ensures r.Success? ==>
        && |submissions| >= |old(submissions)| && submissions[..|old(submissions)|] == old(submissions)
        && SubmitsEachOnce(submissions[|old(submissions)|..], store[sid], BoundCallbacks(store[sid]), force)
    {
      if sid !in store {
        return Failure(NonExistingScenario(sid));
      }
      var s := store[sid];
      var callbacks := BoundCallbacks(s);
      var added: seq<Submission> := [];
      var remaining := s.pipelines.Keys;
      while remaining != {}
        invariant remaining <= s.pipelines.Keys
        invariant submissions == old(submissions) + added
        invariant forall i :: 0 <= i < |added| ==>
          added[i].pipelineKey in s.pipelines && added[i].pipelineKey !in remaining
          && added[i] == Submission(added[i].pipelineKey, s.pipelines[added[i].pipelineKey].id, callbacks, force)
        invariant forall i, j :: 0 <= i < j < |added| ==> added[i].pipelineKey != added[j].pipelineKey
        invariant forall key :: key in s.pipelines && key !in remaining ==>
          exists i :: 0 <= i < |added| && added[i].pipelineKey == key
        decreases |remaining|
      {
        var key :| key in remaining;
        var call := Submission(key, s.pipelines[key].id, callbacks, force);
        ghost var prev := added;
        added := added + [call];
        assert forall i :: 0 <= i < |prev| ==> added[i] == prev[i];
        submissions := submissions + [call];
        remaining := remaining - {key};
        assert added[|added| - 1].pipelineKey == key;
      }
      assert submissions[|old(submissions)|..] == added;
      r := Success(());
    }

    /** `_delete`: a master cannot be deleted; a missing scenario is the
        `AttributeError` of reading its flag. */
    method Delete(sid: EntityId) returns (r: Result<(), ScenarioError>)
      requires Valid()
      modifies this`store
      ensures Valid()
      ensures r.Success? <==> sid in old(store) && !old(store)[sid].isMaster
      ensures sid !in old(store) ==> r == Failure(NoSuchScenario(sid))
      ensures sid in old(store) && old(store)[sid].isMaster ==> r == Failure(DeletingMasterScenario)
      ensures r.Failure? ==> store == old(store)
      ensures r.Success? ==> store == old(store) - {sid}
    {
      if sid !in store {
        return Failure(NoSuchScenario(sid));
      }
      if store[sid].isMaster {
        return Failure(DeletingMasterScenario);
      }
      DeleteKeeps(store, sid);
      store := store - {sid};
      r := Success(());
    }

    /** `_hard_delete`: the same guards as `_delete`; then every pipeline
        whose parent is the scenario or itself is hard-deleted, and the
        scenario removed. */
    method HardDelete(sid: EntityId) returns (r: Result<(), ScenarioError>)
      requires Valid()
      modifies this`store, this`deletions
      ensures Valid()
      ensures r.Success? <==> sid in old(store) && !old(store)[sid].isMaster
      ensures sid !in old(store) ==> r == Failure(NoSuchScenario(sid))
      ensures sid in old(store) && old(store)[sid].isMaster ==> r == Failure(DeletingMasterScenario)
      ensures r.Failure? ==> store == old(store) && deletions == old(deletions)
      ensures r.Success? ==>
        && store == old(store) - {sid}
        && |deletions| >= |old(deletions)| && deletions[..|old(deletions)|] == old(deletions)
        && DeletesCascadedOnce(deletions[|old(deletions)|..], old(store)[sid])
    {
      if sid !in store {
        return Failure(NoSuchScenario(sid));
      }
      var s := store[sid];
      if s.isMaster {
        return Failure(DeletingMasterScenario);
      }
      CascadeToPipelines(s);
      DeleteKeeps(store, sid);
      store := store - {sid};
      r := Success(());
    }

    /** Lines 218-220 of `_hard_delete`: every pipeline of the scenario
        whose parent is the scenario or itself is hard-deleted. */
    method CascadeToPipelines(s: Scenario)
      modifies this`deletions
      ensures |deletions| >= |old(deletions)| && deletions[..|old(deletions)|] == old(deletions)
      ensures DeletesCascadedOnce(deletions[|old(deletions)|..], s)
    {
      var added: seq<PipelineDeletion> := [];
      var remaining := s.pipelines.Keys;
      while remaining != {}
        invariant remaining <= s.pipelines.Keys
        invariant deletions == old(deletions) + added
        invariant forall i :: 0 <= i < |added| ==>
          added[i].pipelineKey in s.pipelines && added[i].pipelineKey !in remaining
          && Cascades(s, s.pipelines[added[i].pipelineKey])
          && added[i] == PipelineDeletion(added[i].pipelineKey, s.pipelines[added[i].pipelineKey].id, s.id)
        invariant forall i, j :: 0 <= i < j < |added| ==> added[i].pipelineKey != added[j].pipelineKey
        invariant forall key :: key in s.pipelines && key !in remaining && Cascades(s, s.pipelines[key]) ==>
          exists i :: 0 <= i < |added| && added[i].pipelineKey == key
        decreases |remaining|
      {
        var key :| key in remaining;
        var p := s.pipelines[key];
        if p.parentId == Some(s.id) || p.parentId == Some(p.id) {
          var call := PipelineDeletion(key, p.id, s.id);
          ghost var prev := added;
          added := added + [call];
          assert forall i :: 0 <= i < |prev| ==> added[i] == prev[i];
          deletions := deletions + [call];
          assert added[|added| - 1].pipelineKey == key;
        }
        remaining := remaining - {key};
      }
      assert deletions[|old(deletions)|..] == added;
    }
  }

  /** Two `_create` calls of a configuration with a frequency at instants
      of one bucket: both scenarios share the bucket's cycle, the first is
      its master exactly when the cycle held no scenario, and the second
      is not master. */
  method CreateInOneBucket(m: ScenarioManager, config: ScenarioConfig, t1: DateTime, t2: DateTime, now: DateTime,
                           pipelineOf: (string, EntityId) -> Pipeline)
    returns (s1: Scenario, s2: Scenario)
    requires m.Valid() && config.frequency.Some?
    requires ValidDateTime(t1) && ValidDateTime(t2) && ValidDateTime(now)
    requires StartOfCycle(config.frequency.value, t1) == StartOfCycle(config.frequency.value, t2)
    modifies m, m.cycleManager
    ensures m.Valid()
    ensures s1.id != s2.id && s1.cycle.Some? && s2.cycle == s1.cycle
    ensures s1.isMaster <==> forall k :: k in old(m.store) ==> old(m.store)[k].cycle != s1.cycle
    ensures !s2.isMaster
  {
    s1 := m.Create(config, Some(t1), now, None, pipelineOf);
    s2 := CreateAgainInBucket(m, config, t2, now, pipelineOf, s1);
  }

  /** A `_create` at an instant whose bucket already has a cycle holding
      the stored scenario `s1` reuses that cycle and is not master. */
  method CreateAgainInBucket(m: ScenarioManager, config: ScenarioConfig, t: DateTime, now: DateTime,
                             pipelineOf: (string, EntityId) -> Pipeline, s1: Scenario)
    returns (s: Scenario)
    requires m.Valid() && config.frequency.Some?
    requires ValidDateTime(t) && ValidDateTime(now)
    requires s1.id in m.store && m.store[s1.id] == s1
    requires exists c :: (c in m.cycleManager.cycles && s1.cycle == Some(c.id)
                          && InBucket(c, config.frequency.value, StartOfCycle(config.frequency.value, t)))
    modifies m, m.cycleManager
    ensures m.Valid()
    ensures s.id != s1.id && s.cycle == s1.cycle && !s.isMaster
  {
    var f := config.frequency.value;
    var c :| c in m.cycleManager.cycles && s1.cycle == Some(c.id) && InBucket(c, f, StartOfCycle(f, t));
    var k :| 0 <= k < |m.cycleManager.cycles| && m.cycleManager.cycles[k] == c;
    LookupFindsStored(m.cycleManager.cycles, k);
    ghost var before := m.store;
    s := m.Create(config, Some(t), now, None, pipelineOf);
    assert s1.id in before && before[s1.id].cycle == s.cycle;
  }

  /** `all(scenarios[0].config_id == s.config_id for s in scenarios)`. */
  predicate SameConfig(scenarios: seq<Scenario>)
  {
    forall i :: 0 <= i < |scenarios| ==> scenarios[i].configId == scenarios[0].configId
  }

  /** The comparators `_compare` runs: those of the requested data node
      only, or all of them when none is requested. */
  function Selected(comparators: map<string, seq<Comparator>>, dataNodeConfigId: Option<string>): map<string, seq<Comparator>>
    requires Truthy(dataNodeConfigId) ==> dataNodeConfigId.value in comparators
  {
    if Truthy(dataNodeConfigId) then map[dataNodeConfigId.value := comparators[dataNodeConfigId.value]]
    else comparators
  }

  /** The data node `dataNodeConfigId` of every scenario, read, in order. */
  function Reads<D>(scenarios: seq<Scenario>, dataNodeConfigId: string, read: (Scenario, string) -> D): seq<D>
  {
    seq(|scenarios|, i requires 0 <= i < |scenarios| => read(scenarios[i], dataNodeConfigId))
  }

  /** `{c.__name__: c(*data) for c in comparators}`: built left to right,
      so a later comparator overwrites an earlier one of the same name. */
  function Scores<D, V>(comparators: seq<Comparator>, data: seq<D>, apply: (Comparator, seq<D>) -> V): (r: map<string, V>)
    ensures forall name :: name in r ==>
      exists i :: 0 <= i < |comparators| && comparators[i].name == name && r[name] == apply(comparators[i], data)
  {
    if comparators == [] then map[]
    else
      var n := |comparators| - 1;
      Scores(comparators[..n], data, apply)[comparators[n].name := apply(comparators[n], data)]
  }

  /** The result holds one entry per comparator name. */
  lemma {:induction false} ScoresNames<D, V>(comparators: seq<Comparator>, data: seq<D>, apply: (Comparator, seq<D>) -> V)
    ensures Scores(comparators, data, apply).Keys == set c | c in comparators :: c.name
    decreases |comparators|
  {
    if comparators != [] {
      var n := |comparators| - 1;
      ScoresNames(comparators[..n], data, apply);
      assert comparators == comparators[..n] + [comparators[n]];
    }
  }

  /** A name's entry is the result of the last comparator of that name. */
  lemma {:induction false} ScoresLastWins<D, V>(comparators: seq<Comparator>, data: seq<D>,
                                               apply: (Comparator, seq<D>) -> V, i: nat)
    requires i < |comparators|
    requires forall j :: i < j < |comparators| ==> comparators[j].name != comparators[i].name
    ensures comparators[i].name in Scores(comparators, data, apply)
    ensures Scores(comparators, data, apply)[comparators[i].name] == apply(comparators[i], data)
    decreases |comparators|
  {
    var n := |comparators| - 1;
    if i < n {
      ScoresLastWins(comparators[..n], data, apply, i);
    }
  }

  /** `_compare`: the guards in the order the source checks them, then, per
      selected data node, the score of every comparator over the data
      node read from each scenario. */
  method Compare<D, V>(scenarios: seq<Scenario>, dataNodeConfigId: Option<string>,
                       configs: map<string, ScenarioConfig>,
                       read: (Scenario, string) -> D, apply: (Comparator, seq<D>) -> V)
    returns (r: Result<map<string, map<string, V>>, ScenarioError>)
    ensures |scenarios| < 2 ==> r == Failure(InsufficientScenarioToCompare)
    ensures |scenarios| >= 2 && !SameConfig(scenarios) ==> r == Failure(DifferentScenarioConfigs)
    ensures |scenarios| >= 2 && SameConfig(scenarios) && scenarios[0].configId !in configs ==>
      r == Failure(NonExistingScenarioConfig(scenarios[0].configId))
    ensures (&& |scenarios| >= 2 && SameConfig(scenarios) && scenarios[0].configId in configs
             && Truthy(dataNodeConfigId) && dataNodeConfigId.value !in configs[scenarios[0].configId].comparators)
      ==> r == Failure(NonExistingComparator)
    ensures (&& |scenarios| >= 2 && SameConfig(scenarios) && scenarios[0].configId in configs
             && (Truthy(dataNodeConfigId) ==> dataNodeConfigId.value in configs[scenarios[0].configId].comparators))
      ==> r.Success?
    ensures r.Success? ==>
      && |scenarios| >= 2 && SameConfig(scenarios) && scenarios[0].configId in configs
      && var comparators := configs[scenarios[0].configId].comparators;
         && (Truthy(dataNodeConfigId) ==> dataNodeConfigId.value in comparators)
         && r.value.Keys == Selected(comparators, dataNodeConfigId).Keys
         && forall d :: d in r.value ==>
              r.value[d] == Scores(Selected(comparators, dataNodeConfigId)[d], Reads(scenarios, d, read), apply)
  {
    if |scenarios| < 2 {
      return Failure(InsufficientScenarioToCompare);
    }
    if !SameConfig(scenarios) {
      return Failure(DifferentScenarioConfigs);
    }
    if scenarios[0].configId !in configs {
      return Failure(NonExistingScenarioConfig(scenarios[0].configId));
    }
    var config := configs[scenarios[0].configId];
    if Truthy(dataNodeConfigId) && dataNodeConfigId.value !in config.comparators {
      return Failure(NonExistingComparator);
    }
    var selected := Selected(config.comparators, dataNodeConfigId);
    var results := CompareSelected(scenarios, selected, read, apply);
    r := Success(results);
  }

  /** The loop of `_compare` over the selected data node config ids. */
  method CompareSelected<D, V>(scenarios: seq<Scenario>, selected: map<string, seq<Comparator>>,
                               read: (Scenario, string) -> D, apply: (Comparator, seq<D>) -> V)
    returns (results: map<string, map<string, V>>)
    ensures results.Keys == selected.Keys
    ensures forall d :: d in results ==> results[d] == Scores(selected[d], Reads(scenarios, d, read), apply)
  {
    results := map[];
    var remaining := selected.Keys;
    while remaining != {}
      invariant remaining <= selected.Keys
      invariant results.Keys == selected.Keys - remaining
      invariant forall d :: d in results ==> results[d] == Scores(selected[d], Reads(scenarios, d, read), apply)
      decreases remaining
    {
      var d :| d in remaining;
      var scores := ScoreAll(selected[d], Reads(scenarios, d, read), apply);
      results := results[d := scores];
      remaining := remaining - {d};
    }
  }

  /** The inner loop of `_compare`: every comparator of one data node
      scores the data read from the scenarios. */
  method ScoreAll<D, V>(comparators: seq<Comparator>, data: seq<D>, apply: (Comparator, seq<D>) -> V)
    returns (scores: map<string, V>)
    ensures scores == Scores(comparators, data, apply)
  {
    scores := map[];
    for i := 0 to |comparators|
      invariant scores == Scores(comparators[..i], data, apply)
    {
      assert comparators[..i + 1][..i] == comparators[..i];
      scores := scores[comparators[i].name := apply(comparators[i], data)];
    }
    assert comparators[..|comparators|] == comparators;
  }
}
