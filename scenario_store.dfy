/** The scenario entities and the store the scenario manager keeps them in
    (taipy/core/scenario/_scenario_manager.py), with the rules that the
    manager's operations maintain over that store: one master per cycle,
    a master in every cycle that has scenarios, and one holder of each tag
    per cycle.  Each state-changing operation is described here by the
    store it leaves behind. */
module ScenarioStore {
  import opened Common
  import opened Calendar
  import opened Cycles

  /** A pipeline as far as the scenario manager looks at it. */
  datatype Pipeline = Pipeline(id: EntityId, configId: string, parentId: Option<EntityId>)

  /** A subscriber callback, known by its name. */
  datatype Callback = Callback(name: string)

  /** A callback bound to the scenario it reports on (`partial(c, scenario)`). */
  datatype BoundCallback = BoundCallback(callback: Callback, scenario: EntityId)

  /** A comparator function, known by its `__name__`. */
  datatype Comparator = Comparator(name: string)

  /** The scenario configuration: its id, its pipeline configurations, its
      optional frequency, its properties (with the `authorized_tags` entry
      kept apart) and its comparators per data-node configuration id. */
  datatype ScenarioConfig = ScenarioConfig(
    id: string,
    pipelineConfigs: seq<string>,
    frequency: Option<Frequency>,
    properties: map<string, string>,
    authorizedTags: set<string>,
    comparators: map<string, seq<Comparator>>)

  /** A scenario: its pipelines by pipeline configuration id, its
      properties, the tags it may carry (empty: any tag), whether it is the
      master of its cycle, the id of that cycle, its tags and subscribers. */
  datatype Scenario = Scenario(
    id: EntityId,
    configId: string,
    pipelines: map<string, Pipeline>,
    properties: map<string, string>,
    authorizedTags: set<string>,
    creationDate: DateTime,
    isMaster: bool,
    cycle: Option<EntityId>,
    tags: set<string>,
    subscribers: seq<Callback>)

  /** The rejections of the scenario manager.  `NoSuchScenario` stands for
      the `AttributeError` raised when `_delete` or `_hard_delete` read the
      flag of a scenario the repository does not hold. */
  datatype ScenarioError =
    | NonExistingScenario(scenarioId: EntityId)
    | NonExistingScenarioConfig(configId: string)
    | NonExistingComparator
    | DoesNotBelongToACycle
    | DeletingMasterScenario
    | DifferentScenarioConfigs
    | InsufficientScenarioToCompare
    | UnauthorizedTagError(tag: string, configId: string)
    | NoSuchScenario(scenarioId: EntityId)

  /** The repository: stored scenarios by id. */
  type Store = map<EntityId, Scenario>

  predicate InCycle(s: Scenario, c: EntityId)
  {
    s.cycle == Some(c)
  }

  /** `len(tags) > 0 and tag not in tags` is the rejection; this is its negation. */
  predicate TagAuthorized(s: Scenario, tag: string)
  {
    |s.authorizedTags| == 0 || tag in s.authorizedTags
  }

  predicate KeysMatch(store: Store)
  {
    forall k :: k in store ==> store[k].id == k
  }

  predicate MastersHaveCycle(store: Store)
  {
    forall k :: k in store && store[k].isMaster ==> store[k].cycle.Some?
  }

  predicate OneMasterPerCycle(store: Store)
  {
    forall a, b ::
      (a in store && b in store && store[a].isMaster && store[b].isMaster && store[a].cycle == store[b].cycle)
      ==> a == b
  }

  /** The master of a cycle is kept until another one is promoted, so a
      cycle holding any scenario holds a master. */
  predicate MasterInEveryCycle(store: Store)
  {
    forall a :: a in store && store[a].cycle.Some? ==>
      exists b :: b in store && store[b].isMaster && store[b].cycle == store[a].cycle
  }

  predicate OneHolderPerCycle(store: Store)
  {
    forall a, b, t ::
      (a in store && b in store && store[a].cycle.Some? && store[a].cycle == store[b].cycle
       && t in store[a].tags && t in store[b].tags)
      ==> a == b
  }

  /** The rules about masters. */
  predicate Elected(store: Store)
  {
    && KeysMatch(store)
    && MastersHaveCycle(store)
    && OneMasterPerCycle(store)
    && MasterInEveryCycle(store)
  }

  predicate Invariant(store: Store)
  {
    Elected(store) && OneHolderPerCycle(store)
  }

  /** The store after `_set_master(s)`: `s` is flagged, every other
      scenario of its cycle unflagged, every other scenario untouched. */
  function Promoted(store: Store, sid: EntityId): (r: Store)
    requires sid in store
    ensures r.Keys == store.Keys && r[sid].isMaster
  {
    map k | k in store ::
      if k == sid then store[k].(isMaster := true)
      else if store[k].cycle == store[sid].cycle then store[k].(isMaster := false)
      else store[k]
  }

  /** The store after `_tag(s, tag)`: `s` carries the tag, no other
      scenario of its cycle does, every other scenario is untouched. */
  function Tagged(store: Store, sid: EntityId, tag: string): (r: Store)
    requires sid in store
    ensures r.Keys == store.Keys && tag in r[sid].tags
  {
    map k | k in store ::
      if k == sid then store[k].(tags := store[k].tags + {tag})
      else if store[sid].cycle.Some? && store[k].cycle == store[sid].cycle then store[k].(tags := store[k].tags - {tag})
      else store[k]
  }

  /** The store after `_untag(s, tag)`. */
  function Untagged(store: Store, sid: EntityId, tag: string): (r: Store)
    requires sid in store
    ensures r.Keys == store.Keys && tag !in r[sid].tags
  {
    store[sid := store[sid].(tags := store[sid].tags - {tag})]
  }

  /** `add_subscriber` appends the callback; `remove_subscriber` drops its
      first registration. */
  function ChangeSubscriber(s: Scenario, cb: Callback, add: bool): Scenario
  {
    if add then s.(subscribers := s.subscribers + [cb])
    else s.(subscribers := RemoveFirst(s.subscribers, cb))
  }

  /** The store after `_subscribe` (`add`) or `_unsubscribe`: the named
      scenario, or every stored one when none is named, changes its
      subscribers. */
  function Subscribed(store: Store, cb: Callback, add: bool, target: Option<EntityId>): (r: Store)
    ensures r.Keys == store.Keys
  {
    match target
    case None => map k | k in store :: ChangeSubscriber(store[k], cb, add)
    case Some(k) => if k in store then store[k := ChangeSubscriber(store[k], cb, add)] else store
  }

  /** A store whose every entry changed its subscribers is the store
      after `_subscribe` or `_unsubscribe` without a scenario. */
  lemma SubscribedEvery(before: Store, after: Store, cb: Callback, add: bool)
    requires after.Keys == before.Keys
    requires forall k :: k in before ==> after[k] == ChangeSubscriber(before[k], cb, add)
    ensures after == Subscribed(before, cb, add, None)
  {
    var every := Subscribed(before, cb, add, None);
    assert every.Keys == after.Keys;
    MapsAgree(after, every);
  }

  /** The pipelines `_hard_delete` cascades to: those whose parent is the
      scenario or the pipeline itself. */
  predicate Cascades(s: Scenario, p: Pipeline)
  {
    p.parentId == Some(s.id) || p.parentId == Some(p.id)
  }

  /** A change that keeps every id, master flag and cycle keeps the rules
      about masters. */
  lemma ElectionUnchanged(store: Store, after: Store)
    requires Elected(store) && after.Keys == store.Keys
    requires forall k :: k in store ==>
      after[k].id == store[k].id && after[k].isMaster == store[k].isMaster && after[k].cycle == store[k].cycle
    ensures Elected(after)
  {
    forall a | a in after && after[a].cycle.Some?
      ensures exists b :: b in after && after[b].isMaster && after[b].cycle == after[a].cycle
    {
      var b :| b in store && store[b].isMaster && store[b].cycle == store[a].cycle;
      assert after[b].isMaster;
    }
  }

  /** A change that keeps every cycle and adds no tag keeps each tag with
      at most one holder per cycle. */
  lemma NoTagAdded(store: Store, after: Store)
    requires OneHolderPerCycle(store) && after.Keys <= store.Keys
    requires forall k :: k in after ==> after[k].cycle == store[k].cycle && after[k].tags <= store[k].tags
    ensures OneHolderPerCycle(after)
  {
  }

  /** `_set_master` on a scenario of a cycle keeps the store's rules, makes
      the scenario the one master of its cycle, demotes the previous master
      and changes nothing else. */
  lemma SetMasterElects(store: Store, sid: EntityId)
    requires Invariant(store) && sid in store && store[sid].cycle.Some?
    ensures var after := Promoted(store, sid);
      && Invariant(after)
      && after.Keys == store.Keys
      && after[sid].isMaster
      && (forall k :: k in store && k != sid && store[k].cycle == store[sid].cycle ==> !after[k].isMaster)
      && (forall k :: k in store ==> after[k] == store[k].(isMaster := after[k].isMaster))
      && (forall k :: k in store && store[k].cycle != store[sid].cycle ==> after[k] == store[k])
  {
    var after := Promoted(store, sid);
    var c := store[sid].cycle;
    assert after.Keys == store.Keys;
    forall k | k in store
      ensures after[k] == store[k].(isMaster := after[k].isMaster)
      ensures after[k].isMaster <==> k == sid || (store[k].isMaster && store[k].cycle != c)
    {
    }
    NoTagAdded(store, after);
    assert KeysMatch(after);
    assert MastersHaveCycle(after);
    assert OneMasterPerCycle(after) by {
      forall a, b | a in after && b in after && after[a].isMaster && after[b].isMaster && after[a].cycle == after[b].cycle
        ensures a == b
      {
        if after[a].cycle != c {
          assert store[a].isMaster && store[b].isMaster;
        }
      }
    }
    assert MasterInEveryCycle(after) by {
      forall a | a in after && after[a].cycle.Some?
        ensures exists b :: b in after && after[b].isMaster && after[b].cycle == after[a].cycle
      {
        if after[a].cycle == store[sid].cycle {
          assert after[sid].isMaster;
        } else {
          var b :| b in store && store[b].isMaster && store[b].cycle == store[a].cycle;
          assert after[b] == store[b];
        }
      }
    }
  }

  /** What `Tagged` does to each scenario. */
  lemma TaggedShape(store: Store, sid: EntityId, tag: string)
    requires sid in store
    ensures var after := Tagged(store, sid, tag); var c := store[sid].cycle;
      && after.Keys == store.Keys
      && forall k :: k in store ==>
        && after[k] == store[k].(tags := after[k].tags)
        && (forall t :: t != tag ==> (t in after[k].tags <==> t in store[k].tags))
        && (tag in after[k].tags <==> k == sid || (tag in store[k].tags && (c.None? || store[k].cycle != c)))
  {
    var after := Tagged(store, sid, tag);
    forall k | k in store
      ensures after[k] == store[k].(tags := after[k].tags)
    {
    }
  }

  /** `_tag` keeps the store's rules, leaves the scenario as the one holder
      of the tag in its cycle and touches no other tag. */
  lemma TagTransfers(store: Store, sid: EntityId, tag: string)
    requires Invariant(store) && sid in store
    ensures var after := Tagged(store, sid, tag);
      && Invariant(after)
      && after.Keys == store.Keys
      && tag in after[sid].tags
      && (store[sid].cycle.Some? ==>
            forall k :: k in after && k != sid && after[k].cycle == store[sid].cycle ==> tag !in after[k].tags)
      && (forall k, t :: k in store && t != tag ==> (t in after[k].tags <==> t in store[k].tags))
      && (forall k :: k in store ==> after[k] == store[k].(tags := after[k].tags))
  {
    TaggedShape(store, sid, tag);
    TagKeeps(store, sid, tag);
  }

  /** `_tag` keeps the store's rules and the set of stored scenarios. */
  lemma TagKeeps(store: Store, sid: EntityId, tag: string)
    requires Invariant(store) && sid in store
    ensures Invariant(Tagged(store, sid, tag)) && Tagged(store, sid, tag).Keys == store.Keys
  {
    TaggedShape(store, sid, tag);
    ElectionUnchanged(store, Tagged(store, sid, tag));
    TagKeepsHolders(store, sid, tag);
  }

  /** After `_tag`, still no tag has two holders in one cycle. */
  lemma TagKeepsHolders(store: Store, sid: EntityId, tag: string)
    requires OneHolderPerCycle(store) && sid in store
    ensures OneHolderPerCycle(Tagged(store, sid, tag))
  {
    var after := Tagged(store, sid, tag);
    TaggedShape(store, sid, tag);
    forall a, b, t | a in after && b in after && after[a].cycle.Some? && after[a].cycle == after[b].cycle
      && t in after[a].tags && t in after[b].tags
      ensures a == b
    {
      if t != tag {
        assert t in store[a].tags && t in store[b].tags;
      }
    }
  }

  /** `_untag` keeps the store's rules and removes only that tag. */
  lemma UntagKeeps(store: Store, sid: EntityId, tag: string)
    requires Invariant(store) && sid in store
    ensures var after := Untagged(store, sid, tag);
      && Invariant(after)
      && tag !in after[sid].tags
      && (forall t :: t != tag ==> (t in after[sid].tags <==> t in store[sid].tags))
  {
    var after := Untagged(store, sid, tag);
    assert after.Keys == store.Keys;
    forall k | k in store
      ensures after[k] == store[k].(tags := after[k].tags) && after[k].tags <= store[k].tags
    {
      if k == sid {
        assert after[k] == store[sid].(tags := store[sid].tags - {tag});
      } else {
        assert after[k] == store[k];
      }
    }
    ElectionUnchanged(store, after);
    NoTagAdded(store, after);
  }

  /** Changing only subscribers, for one scenario or for all, keeps the
      store's rules. */
  lemma SubscriptionKeeps(store: Store, cb: Callback, add: bool, target: Option<EntityId>)
    requires Invariant(store)
    ensures var after := Subscribed(store, cb, add, target);
      && Invariant(after)
      && after.Keys == store.Keys
      && (forall k :: k in store ==> after[k] == store[k].(subscribers := after[k].subscribers))
  {
    var after := Subscribed(store, cb, add, target);
    assert after.Keys == store.Keys;
    forall k | k in store
      ensures after[k] == store[k].(subscribers := after[k].subscribers)
    {
      if target.None? || target == Some(k) {
        assert after[k] == ChangeSubscriber(store[k], cb, add);
      } else {
        assert after[k] == store[k];
      }
    }
    ElectionUnchanged(store, after);
    NoTagAdded(store, after);
  }

  /** Removing a callback appended to a sequence that did not hold it
      gives the sequence back. */
  lemma RemoveAppended(xs: seq<Callback>, cb: Callback)
    requires cb !in xs
    ensures RemoveFirst(xs + [cb], cb) == xs
  {
    assert (xs + [cb])[..|xs|] == xs;
    RemoveFirstAt(xs + [cb], cb, |xs|);
    assert (xs + [cb])[|xs| + 1..] == [];
  }

  /** `_unsubscribe` undoes `_subscribe` of a callback that none of the
      scenarios it reaches had registered. */
  lemma UnsubscribeUndoes(store: Store, cb: Callback, target: Option<EntityId>)
    requires forall k :: k in store && (target.None? || target == Some(k)) ==> cb !in store[k].subscribers
    ensures Subscribed(Subscribed(store, cb, true, target), cb, false, target) == store
  {
    match target
    case None => UnsubscribeAllUndoes(store, cb);
    case Some(k) =>
      if k in store {
        UnsubscribeOneUndoes(store, cb, k);
      }
  }

  lemma UnsubscribeOneUndoes(store: Store, cb: Callback, k: EntityId)
    requires k in store && cb !in store[k].subscribers
    ensures Subscribed(Subscribed(store, cb, true, Some(k)), cb, false, Some(k)) == store
  {
    var s := store[k];
    var mid := store[k := ChangeSubscriber(s, cb, true)];
    SubscriberRoundTrip(s, cb);
    var after := mid[k := ChangeSubscriber(mid[k], cb, false)];
    assert after[k] == s;
    assert after.Keys == store.Keys;
    assert forall j :: j in store ==> after[j] == store[j];
    MapsAgree(after, store);
  }

  lemma UnsubscribeAllUndoes(store: Store, cb: Callback)
    requires forall k :: k in store ==> cb !in store[k].subscribers
    ensures Subscribed(Subscribed(store, cb, true, None), cb, false, None) == store
  {
    var mid := Subscribed(store, cb, true, None);
    var after := Subscribed(mid, cb, false, None);
    assert mid.Keys == store.Keys && after.Keys == store.Keys;
    forall k | k in store
      ensures after[k] == store[k]
    {
      SubscriberRoundTrip(store[k], cb);
    }
    MapsAgree(after, store);
  }

  /** Removing a callback just added to a scenario that did not hold it
      gives the scenario back. */
  lemma SubscriberRoundTrip(s: Scenario, cb: Callback)
    requires cb !in s.subscribers
    ensures ChangeSubscriber(ChangeSubscriber(s, cb, true), cb, false) == s
  {
    RemoveAppended(s.subscribers, cb);
  }

  /** Removing a scenario that is not a master keeps the store's rules:
      every cycle keeps its master. */
  lemma DeleteKeeps(store: Store, sid: EntityId)
    requires Invariant(store) && sid in store && !store[sid].isMaster
    ensures Invariant(store - {sid})
  {
    var after := store - {sid};
    NoTagAdded(store, after);
    forall a | a in after && after[a].cycle.Some?
      ensures exists b :: b in after && after[b].isMaster && after[b].cycle == after[a].cycle
    {
      var b :| b in store && store[b].isMaster && store[b].cycle == store[a].cycle;
      assert b != sid && b in after;
    }
  }

  /** Storing a new untagged scenario that is master exactly when no stored
      scenario shares its cycle keeps the store's rules. */
  lemma CreateKeeps(store: Store, s: Scenario)
    requires Invariant(store) && s.id !in store && s.tags == {}
    requires s.isMaster <==> s.cycle.Some? && forall k :: k in store ==> store[k].cycle != s.cycle
    ensures Invariant(store[s.id := s])
  {
    var after := store[s.id := s];
    assert KeysMatch(after);
    assert MastersHaveCycle(after);
    assert OneMasterPerCycle(after);
    assert OneHolderPerCycle(after) by {
      forall a, b, t | a in after && b in after && after[a].cycle.Some? && after[a].cycle == after[b].cycle
        && t in after[a].tags && t in after[b].tags
        ensures a == b
      {
        assert a != s.id && b != s.id;
      }
    }
    forall a | a in after && after[a].cycle.Some?
      ensures exists b :: b in after && after[b].isMaster && after[b].cycle == after[a].cycle
    {
      if a == s.id {
        if !s.isMaster {
          var k :| k in store && store[k].cycle == s.cycle;
          var b :| b in store && store[b].isMaster && store[b].cycle == store[k].cycle;
          assert after[b] == store[b];
        }
      } else {
        var b :| b in store && store[b].isMaster && store[b].cycle == store[a].cycle;
        assert after[b] == store[b];
      }
    }
  }

  /** Demoting the master found in a cycle, then flagging the scenario,
      is `Promoted`: the found master is the only one of its cycle. */
  lemma DemoteThenPromote(store: Store, sid: EntityId, master: Option<Scenario>)
    requires Invariant(store) && sid in store && store[sid].cycle.Some?
    requires master.Some? ==>
      (master.value.id in store && store[master.value.id] == master.value
       && master.value.isMaster && master.value.cycle == store[sid].cycle)
    requires master.None? ==> forall k :: k in store ==> !(store[k].isMaster && store[k].cycle == store[sid].cycle)
    ensures var mid := if master.Some? then store[master.value.id := master.value.(isMaster := false)] else store;
      mid[sid := mid[sid].(isMaster := true)] == Promoted(store, sid)
  {
    var mid := if master.Some? then store[master.value.id := master.value.(isMaster := false)] else store;
    var after := mid[sid := mid[sid].(isMaster := true)];
    var promoted := Promoted(store, sid);
    forall k | k in store
      ensures after[k] == promoted[k]
    {
      if k != sid && store[k].cycle == store[sid].cycle && store[k].isMaster && master.Some? {
        assert k == master.value.id;
      }
    }
    assert after.Keys == promoted.Keys;
    MapsAgree(after, promoted);
  }

  /** Taking the tag from the holder found in the cycle, then giving it to
      the scenario, is `Tagged`: the found holder is the only one. */
  lemma MoveTag(store: Store, sid: EntityId, tag: string, holder: Option<Scenario>)
    requires Invariant(store) && sid in store
    requires store[sid].cycle.None? ==> holder.None?
    requires holder.Some? ==>
      (holder.value.id in store && store[holder.value.id] == holder.value
       && tag in holder.value.tags && holder.value.cycle == store[sid].cycle)
    requires store[sid].cycle.Some? && holder.None? ==>
      forall k :: k in store ==> !(tag in store[k].tags && store[k].cycle == store[sid].cycle)
    ensures var mid := if holder.Some? then store[holder.value.id := holder.value.(tags := holder.value.tags - {tag})] else store;
      mid[sid := mid[sid].(tags := mid[sid].tags + {tag})] == Tagged(store, sid, tag)
  {
    var mid := if holder.Some? then store[holder.value.id := holder.value.(tags := holder.value.tags - {tag})] else store;
    assert mid.Keys == store.Keys;
    var after := mid[sid := mid[sid].(tags := mid[sid].tags + {tag})];
    var tagged := Tagged(store, sid, tag);
    assert after.Keys == store.Keys;
    assert tagged.Keys == store.Keys;
    forall k | k in store
      ensures after[k] == tagged[k]
    {
      if k != sid && store[sid].cycle.Some? && store[k].cycle == store[sid].cycle {
        if tag in store[k].tags {
          assert holder.Some? && k == holder.value.id;
        } else {
          assert store[k].tags - {tag} == store[k].tags;
        }
      }
    }
    MapsAgree(after, tagged);
  }
}
