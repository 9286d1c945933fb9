# taipy-core: cycles, the scenario manager and the backup file

This project models three parts of taipy-core in Dafny and proves properties of them.

- **Cycles** (`taipy/core/cycle/_cycle_manager.py`). A frequency (daily, weekly, monthly, yearly) splits time into buckets.
  - `_get_start_date_of_cycle` gives midnight of the bucket's first day.
  - `_get_end_date_of_cycle` gives the instant one microsecond before the next bucket.
  - `_get_or_create` reuses the stored cycle of a bucket or creates and stores one. `_create` defaults its display name to the ISO text of the start.
  - Dates are proleptic Gregorian dates, numbered by day as Python's `date.toordinal()` does. Instants are a date plus a microsecond of the day. Python's `weekday()` is `(ordinal + 6) % 7`, with Monday = 0.
  - The cycle manager is a class over the sequence of stored cycles.
- **Scenario manager** (`taipy/core/scenario/_scenario_manager.py`). A class over the repository, modelled as a map from scenario id to scenario. The model covers:
  - master election on `_create` and `_set_master`;
  - tag transfer within a cycle, with the authorized-tag guard;
  - `_untag`, subscribe and unsubscribe;
  - `_submit`, guarded `_delete` and `_hard_delete` with the pipeline cascade;
  - the filtering queries and the guard chain of `_compare`.

  Each state change is tied to a pure function of the old store: `Promoted`, `Tagged`, `Untagged`, `Subscribed`. Every method preserves the store invariant:
  - at most one master per cycle;
  - a master in every cycle that holds scenarios;
  - masters only in cycles;
  - at most one holder of a tag per cycle.
- **Backup file** (`src/taipy/core/_backup/_backup.py`). The file's text is the state of a class. `append` adds `path + "\n"`. `remove` deletes only the first full line equal to the path. `replace` is remove then append. All three do nothing when `TAIPY_BACKUP_FILE_PATH` is unset or empty.

`_hard_delete` hard-deletes every pipeline of the scenario whose `parent_id` is the scenario's id or the pipeline's own id (line 219), and no other.

The modules are:
- `Common`: options, results, ids, `RemoveFirst`.
- `Calendar`: the Gregorian date arithmetic that `datetime` supplies.
- `Cycles`.
- `ScenarioStore`: the entities, the invariant and the pure store transitions.
- `Scenarios`: the manager class and `_compare`.
- `Backup`.

## Model

| member | source | states |
|---|---|---|
| Cycles.StartOfCycle | taipy/core/cycle/_cycle_manager.py:42-54 | The start is a valid midnight no later than the instant. Daily: the same date. Weekly: a Monday 0–6 days before. Monthly: day 1 of the month. Yearly: January 1 of the year. |
| Cycles.WeekStart | taipy/core/cycle/_cycle_manager.py:48-49 | `date - weekday(date)` days is a valid date whose weekday is 0, within 6 days before the date. |
| Cycles.NextBucketDate | taipy/core/cycle/_cycle_manager.py:58-67 | The date reached before stepping back 1 µs is a valid date exactly `DaysToNextBucket` days after the start. That is 1, `7 - weekday`, the rest of the month (leap-aware `monthrange`) or the rest of the year. |
| Cycles.EndOfCycle | taipy/core/cycle/_cycle_manager.py:56-68 | The end is a valid instant exactly 1 µs before the start plus the bucket length in days. |
| Cycles.BucketLength | taipy/core/cycle/_cycle_manager.py:57-68 | From a bucket start, the bucket lasts 1 day, 7 days, the real length of the month or the real length of the year. |
| Cycles.StartIdempotent | taipy/core/cycle/_cycle_manager.py:43-54 | `start(f, start(f, t)) == start(f, t)`. |
| Cycles.InstantInBucket | taipy/core/cycle/_cycle_manager.py:43-68 | `start(f, t) <= t <= end(f, start(f, t))`. |
| Cycles.EndAtLastMicro | taipy/core/cycle/_cycle_manager.py:68 | From a midnight, the end is the last microsecond (86399999999) of the day before the next bucket. |
| Cycles.DaysOfBucket | taipy/core/cycle/_cycle_manager.py:43-68 | An instant between start and end falls on one of the bucket's days. |
| Cycles.WeeklySameStart | taipy/core/cycle/_cycle_manager.py:48-49 | Every date of the seven days from a week's Monday has that Monday as its weekly start. |
| Cycles.MonthlySameStart | taipy/core/cycle/_cycle_manager.py:50-51 | Every date between the first and the last day of a month has the same monthly start. |
| Cycles.YearlySameStart | taipy/core/cycle/_cycle_manager.py:52-53 | Every date between January 1 and December 31 of a year has the same yearly start. |
| Cycles.SameBucket | taipy/core/cycle/_cycle_manager.py:43-68 | Two instants have the same start if and only if the second lies between the start and the end of the first one's bucket. |
| Cycles.WeekAfterIsMonday | taipy/core/cycle/_cycle_manager.py:61-62 | Seven days after a Monday is a Monday. |
| Cycles.MonthAfterIsFirst | taipy/core/cycle/_cycle_manager.py:63-65 | The day after the month's last day (`monthrange`) is a first of the month. |
| Cycles.YearAfterIsNewYear | taipy/core/cycle/_cycle_manager.py:66-67 | The day after December 31 is January 1. |
| Cycles.NextStartIsStart | taipy/core/cycle/_cycle_manager.py:42-67 | The first day after a bucket is the start of its own bucket, so buckets tile the timeline. |
| Cycles.DaysToNextBucket | taipy/core/cycle/_cycle_manager.py:59-67 | The days from a date to the next bucket start number at least 1. They are exactly 1 for daily, at most 7 for weekly, at most the month's length for monthly and at most the year's length for yearly. |
| Cycles.NextBucketFollowsEnd | taipy/core/cycle/_cycle_manager.py:42-68 | The end lies in the bucket. The instant 1 µs later is a different bucket start. |
| Cycles.FirstInBucket | taipy/core/cycle/_cycle_manager.py:36-38 | The lookup by (frequency, start date) returns the first stored cycle of that bucket, or none if no stored cycle has it. |
| Cycles.RegisterKeeps | taipy/core/cycle/_cycle_manager.py:24-27 | Storing a bucketed cycle with a fresh serial keeps every stored cycle bucketed and every id distinct. |
| Cycles.NewBucketKeeps | taipy/core/cycle/_cycle_manager.py:36-40 | Storing a cycle whose bucket no stored cycle covers keeps one cycle per bucket. |
| Cycles.CycleManager.Create | taipy/core/cycle/_cycle_manager.py:16-28 | Appends a cycle with a fresh id. Its creation date is the given one or `now`, its start and end are those of that instant, and its `display_name` is the given name if truthy, else the ISO text of the start. |
| Cycles.CycleManager.GetOrCreate | taipy/core/cycle/_cycle_manager.py:30-40 | If the bucket is already stored, returns its first stored cycle and stores nothing. Otherwise stores a new cycle of that bucket. Preserves one cycle per bucket. |
| Cycles.LookupFindsStored | taipy/core/cycle/_cycle_manager.py:36-38 | With one cycle per bucket, the lookup by a stored cycle's bucket finds that cycle. |
| Cycles.IdsIdentify | taipy/core/cycle/_cycle_manager.py:24-27 | Among stored cycles with distinct ids, equal ids mean the same cycle. |
| Cycles.SecondLookup | taipy/core/cycle/_cycle_manager.py:34-40 | A later lookup returns the cycle an earlier one returned exactly when the buckets are equal. Different buckets get different ids. |
| Cycles.GetOrCreateTwice | taipy/core/cycle/_cycle_manager.py:30-40 | Two `_get_or_create` calls return the same cycle if and only if the instants share a bucket; otherwise the ids differ. At most two cycles are stored. |
| Calendar.Decimal | taipy/core/cycle/_cycle_manager.py:23 | The decimal text of `n` is non-empty and reads back as `n`. |
| Calendar.DecimalLength | taipy/core/cycle/_cycle_manager.py:23 | A number below `10^w` has at most `w` decimal digits. |
| Calendar.ValueLeadingZeros | taipy/core/cycle/_cycle_manager.py:23 | Leading zeros do not change the number a digit text reads as. |
| Calendar.ZeroPadded | taipy/core/cycle/_cycle_manager.py:23 | The zero-padded text reads back as the number and is at least the width long. It is exactly the width when the number fits. |
| Calendar.IsoFormatFields | taipy/core/cycle/_cycle_manager.py:23 | For a year up to 9999, `isoformat()` is 19 characters at a whole second and 26 otherwise. Year, month, day, hour, minute and second sit at fixed positions, separated by `-`, `T` and `:`, and each reads back as its field. A fraction follows a `.` and reads back as the microseconds. |
| Calendar.DaysBeforeYearBounds | taipy/core/cycle/_cycle_manager.py:49 | The days before January 1 of year `y`, behind `toordinal()`, number between 365 and 366 per earlier year. |
| Calendar.DaysInMonth | taipy/core/cycle/_cycle_manager.py:64 | `calendar.monthrange(y, m)[1]` is 28 to 31, and 29 exactly for February of a leap year. |
| Calendar.NextDay | taipy/core/cycle/_cycle_manager.py:60 | Adding one day gives the valid date with the next day number. |
| Calendar.AddDays | taipy/core/cycle/_cycle_manager.py:60-67 | Adding `n` days gives the valid date whose day number is `n` more. |
| Calendar.SubDays | taipy/core/cycle/_cycle_manager.py:49 | Subtracting `n` days gives the valid date whose day number is `n` less. |
| Calendar.Weekday | taipy/core/cycle/_cycle_manager.py:49 | `weekday()` lies in 0..6. |
| Calendar.MicroBefore | taipy/core/cycle/_cycle_manager.py:68 | `t - timedelta(microseconds=1)` is the valid instant whose timestamp is one less. |
| Calendar.OrdinalInjective | taipy/core/cycle/_cycle_manager.py:42-54 | Two valid dates with the same day number are equal. |
| Calendar.OrdinalMonotone | taipy/core/cycle/_cycle_manager.py:42-54 | A date earlier in (year, month, day) order has a smaller day number. |
| Calendar.TimestampDayOrder | taipy/core/cycle/_cycle_manager.py:58-68 | An earlier instant is on the same day or an earlier one. |
| Backup.ReplaceFirst | src/taipy/core/_backup/_backup.py:36-38 | `str.replace(pat, rep, 1)` either leaves the text unchanged or trades one `pat` for `rep`, as the lengths show. |
| Backup.ReplaceFirstAt | src/taipy/core/_backup/_backup.py:36-38 | When the first occurrence of `pat` starts at `k`, the result is the text before `k`, then `rep`, then the text after that occurrence. |
| Backup.ReplaceFirstAbsent | src/taipy/core/_backup/_backup.py:35-43 | With no occurrence of `pat`, the text is unchanged, so nothing is written. |
| Backup.RemovedLine | src/taipy/core/_backup/_backup.py:31-38 | The rewrite either leaves the text unchanged or removes exactly the length of `path + "\n"`. |
| Backup.RemovedLineOfLines | src/taipy/core/_backup/_backup.py:30-38 | On a file of newline-terminated lines, the rewrite removes exactly the first line equal to the path. Later duplicates stay. |
| Backup.RemovedLineAbsent | src/taipy/core/_backup/_backup.py:35-43 | A path that is not a full line leaves the text unchanged, even when it is part of a longer line. |
| Backup.CollapseAtLineStart | src/taipy/core/_backup/_backup.py:37-38 | Collapsing the first `"\n" + path + "\n"` to `"\n"` removes the first matching full line among the lines after the first. |
| Backup.ReplaceFirstSkipsLine | src/taipy/core/_backup/_backup.py:38 | The first `"\n" + path + "\n"` cannot start inside a line that holds no newline. |
| Backup.SameLine | src/taipy/core/_backup/_backup.py:35 | Text starting with `path + "\n"` has `path` as its first line. |
| Backup.JoinAppend | src/taipy/core/_backup/_backup.py:22 | Writing `path + "\n"` at the end of a file of lines adds `path` as its last line. |
| Backup.BackupFile.Append | src/taipy/core/_backup/_backup.py:19-22 | When configured, the text becomes the old text (empty if there was no file) followed by `path + "\n"`; otherwise nothing changes. |
| Backup.BackupFile.Remove | src/taipy/core/_backup/_backup.py:25-45 | When configured and the file exists, the text becomes the rewrite (drop a leading `path + "\n"`, else collapse the first `"\n" + path + "\n"`). Otherwise nothing changes. |
| Backup.BackupFile.Replace | src/taipy/core/_backup/_backup.py:48-50 | The text is the removal of the old path followed by the appended new path. With no variable set, nothing changes. |
| Backup.BackupFile.ReplaceLine | src/taipy/core/_backup/_backup.py:48-50 | On a file of lines, replace leaves the lines without the first occurrence of the old path and with the new path last. |
| Common.RemoveFirst | src/taipy/core/_backup/_backup.py:35-38 | Removing the first occurrence removes one copy (as multisets), and an absent element changes nothing. |
| Common.RemoveFirstAt | src/taipy/core/_backup/_backup.py:35-38 | Removing the first occurrence at index `i` is the sequence without position `i`. |
| ScenarioStore.Promoted | taipy/core/scenario/_scenario_manager.py:143-151 | The promoted store has the same ids, and the scenario is master in it. |
| ScenarioStore.Tagged | taipy/core/scenario/_scenario_manager.py:155-166 | The tagged store has the same ids, and the scenario holds the tag in it. |
| ScenarioStore.Untagged | taipy/core/scenario/_scenario_manager.py:168-171 | The untagged store has the same ids, and the scenario no longer holds the tag. |
| ScenarioStore.Subscribed | taipy/core/scenario/_scenario_manager.py:33-61 | Subscribing or unsubscribing keeps the set of stored ids. |
| ScenarioStore.SetMasterElects | taipy/core/scenario/_scenario_manager.py:143-151 | Promotion keeps the invariant and makes the scenario master. It demotes every other master of its cycle, changes only master flags, and leaves other cycles untouched. |
| ScenarioStore.DemoteThenPromote | taipy/core/scenario/_scenario_manager.py:145-151 | Unflagging the master `_get_master` found, then flagging the scenario, yields the promoted store. |
| ScenarioStore.TaggedShape | taipy/core/scenario/_scenario_manager.py:160-166 | After `_tag`, only tag sets change and no other tag moves. A scenario holds the tag if and only if it is the target, or it held the tag and is not in the target's cycle. |
| ScenarioStore.TagTransfers | taipy/core/scenario/_scenario_manager.py:155-166 | `_tag` keeps the invariant. The scenario holds the tag, no other scenario of its cycle does, and nothing else changes. |
| ScenarioStore.TagKeeps | taipy/core/scenario/_scenario_manager.py:160-166 | The tagged store keeps the invariant and the set of stored ids. |
| ScenarioStore.TagKeepsHolders | taipy/core/scenario/_scenario_manager.py:160-166 | After `_tag`, no tag has two holders in one cycle. |
| ScenarioStore.MoveTag | taipy/core/scenario/_scenario_manager.py:160-166 | Removing the tag from the holder `_get_by_tag` found, then adding it to the scenario, yields the tagged store. |
| ScenarioStore.UntagKeeps | taipy/core/scenario/_scenario_manager.py:168-171 | `_untag` keeps the invariant, removes the tag from the scenario and leaves its other tags. |
| ScenarioStore.SubscriptionKeeps | taipy/core/scenario/_scenario_manager.py:33-61 | Subscribing or unsubscribing changes only subscriber lists, keeps the ids and keeps the invariant. |
| ScenarioStore.SubscribedEvery | taipy/core/scenario/_scenario_manager.py:35-39 | A store whose every scenario had the callback added (or removed) is the store after `_subscribe` (or `_unsubscribe`) without a scenario. |
| ScenarioStore.UnsubscribeUndoes | taipy/core/scenario/_scenario_manager.py:33-61 | Unsubscribing undoes subscribing a callback that none of the reached scenarios held. |
| ScenarioStore.UnsubscribeOneUndoes | taipy/core/scenario/_scenario_manager.py:41-51 | The same round trip for one named scenario. |
| ScenarioStore.UnsubscribeAllUndoes | taipy/core/scenario/_scenario_manager.py:35-49 | The same round trip for every stored scenario. |
| ScenarioStore.SubscriberRoundTrip | taipy/core/scenario/_scenario_manager.py:53-61 | Removing a callback just added to a scenario that lacked it gives the scenario back. |
| ScenarioStore.RemoveAppended | taipy/core/scenario/_scenario_manager.py:53-61 | Removing the first occurrence of an element just appended to a sequence that lacked it gives the sequence back. |
| ScenarioStore.DeleteKeeps | taipy/core/scenario/_scenario_manager.py:173-177 | Removing a non-master keeps the invariant; every cycle keeps its master. |
| ScenarioStore.CreateKeeps | taipy/core/scenario/_scenario_manager.py:72-86 | Storing a new untagged scenario, master exactly when it has a cycle no stored scenario shares, keeps the invariant. |
| ScenarioStore.ElectionUnchanged | taipy/core/scenario/_scenario_manager.py:155-171 | A change keeping every id, master flag and cycle keeps the master rules. |
| ScenarioStore.NoTagAdded | taipy/core/scenario/_scenario_manager.py:168-177 | A change keeping cycles and adding no tag keeps one holder per tag per cycle. |
| Scenarios.Select | taipy/core/scenario/_scenario_manager.py:119-141 | The scan returns the stored scenarios satisfying the filter, exactly and each once. |
| Scenarios.ScenarioManager.GetAllByCycle | taipy/core/scenario/_scenario_manager.py:127-133 | Exactly the stored scenarios of the cycle, each once; the store is unchanged. |
| Scenarios.ScenarioManager.GetAllByTag | taipy/core/scenario/_scenario_manager.py:119-125 | Exactly the stored scenarios holding the tag, each once. |
| Scenarios.ScenarioManager.GetAllMasters | taipy/core/scenario/_scenario_manager.py:135-141 | Exactly the stored master scenarios, each once. |
| Scenarios.ScenarioManager.GetAllByConfigId | taipy/core/scenario/_scenario_manager.py:223-225 | Exactly the stored scenarios of the configuration, each once. |
| Scenarios.ScenarioManager.GetMaster | taipy/core/scenario/_scenario_manager.py:103-109 | Returns the master of the cycle, which is its only master, or none if and only if the cycle has no master. |
| Scenarios.ScenarioManager.GetByTag | taipy/core/scenario/_scenario_manager.py:111-117 | Returns the holder of the tag in the cycle, which is its only holder, or none if and only if no scenario of the cycle holds it. |
| Scenarios.ScenarioManager.Create | taipy/core/scenario/_scenario_manager.py:63-87 | Stores a scenario under a fresh id and keeps the invariant. It is master if and only if it has a cycle that no stored scenario shares. It has a cycle if and only if the configuration has a frequency. Without a frequency the stored cycles are unchanged. With one, either the bucket's first stored cycle is reused and the cycles are unchanged, or exactly one new cycle with a fresh id is appended and used. Pipelines come from the configuration; `display_name` is set only when given. |
| Scenarios.ScenarioManager.StoreNew | taipy/core/scenario/_scenario_manager.py:70-86 | The scenario gets the next id, the configuration's pipelines scoped to that id, a copy of the properties with `display_name` only when given, no tags and no subscribers. It is stored with nothing else changed, and the invariant is kept. |
| Scenarios.ScenarioManager.CycleOfNew | taipy/core/scenario/_scenario_manager.py:72-73 | The cycle is got or created exactly when there is a frequency, with the same outcome on the stored cycles as for `Create`. The master flag holds if and only if no stored scenario is in that cycle. |
| Scenarios.CreateInOneBucket | taipy/core/scenario/_scenario_manager.py:72-73 | Two creations at instants of one bucket share a cycle. The first is master exactly when no stored scenario had that cycle, and the second is never master. |
| Scenarios.CreateAgainInBucket | taipy/core/scenario/_scenario_manager.py:72-73 | A creation in the bucket of a stored scenario's cycle reuses that cycle and is not master. |
| Scenarios.ScenarioManager.SetMaster | taipy/core/scenario/_scenario_manager.py:143-153 | Fails with `DoesNotBelongToACycle` if and only if there is no cycle, and then changes nothing. Otherwise the store becomes `Promoted`. The invariant holds throughout. |
| Scenarios.ScenarioManager.Tag | taipy/core/scenario/_scenario_manager.py:155-166 | Fails with `UnauthorizedTagError` if and only if the authorized tags are non-empty and lack the tag, before any change. Otherwise the store becomes `Tagged`. The invariant holds throughout. |
| Scenarios.ScenarioManager.HolderInCycle | taipy/core/scenario/_scenario_manager.py:160-162 | The found holder is stored, holds the tag and is in the scenario's cycle. If none is found, no scenario of the cycle holds the tag. |
| Scenarios.ScenarioManager.Untag | taipy/core/scenario/_scenario_manager.py:168-171 | The store becomes `Untagged` and keeps the invariant. |
| Scenarios.ScenarioManager.ChangeSubscription | taipy/core/scenario/_scenario_manager.py:33-61 | The store becomes `Subscribed` for the named scenario or for all, and keeps the invariant. |
| Scenarios.ScenarioManager.ChangeOneSubscription | taipy/core/scenario/_scenario_manager.py:41-51 | Only the named scenario's subscribers change. |
| Scenarios.ScenarioManager.ChangeEverySubscription | taipy/core/scenario/_scenario_manager.py:35-49 | The loop over all scenarios changes every stored scenario's subscribers. |
| Scenarios.ScenarioManager.Subscribe | taipy/core/scenario/_scenario_manager.py:33-41 | The callback is appended to the named scenario, or to every stored one. |
| Scenarios.ScenarioManager.Unsubscribe | taipy/core/scenario/_scenario_manager.py:43-51 | The callback's first registration is removed from the named scenario, or from every stored one. |
| Scenarios.BoundCallbacks | taipy/core/scenario/_scenario_manager.py:99-101 | One bound callback per subscriber. A bound callback is in the list if and only if it binds a subscriber to this scenario. |
| Scenarios.ScenarioManager.Submit | taipy/core/scenario/_scenario_manager.py:89-101 | Fails with `NonExistingScenario` if and only if the id is not stored, and then submits nothing. Otherwise every pipeline is submitted exactly once, with the subscribers bound to the scenario and the given `force`. |
| Scenarios.ScenarioManager.Delete | taipy/core/scenario/_scenario_manager.py:173-177 | A master is refused with `DeletingMasterScenario`, leaving the store unchanged. A non-master is removed and the invariant is kept. |
| Scenarios.ScenarioManager.HardDelete | taipy/core/scenario/_scenario_manager.py:212-221 | The same guard as `Delete`. A non-master is removed after exactly its cascading pipelines are hard-deleted, each once. |
| Scenarios.ScenarioManager.CascadeToPipelines | taipy/core/scenario/_scenario_manager.py:218-220 | Hard-deletes exactly the pipelines whose parent is the scenario or the pipeline itself, each once, and no other. |
| Scenarios.Compare | taipy/core/scenario/_scenario_manager.py:179-210 | The guards fire in source order: fewer than two scenarios, differing configurations, missing configuration, unknown requested data node. When none of them fires, the result is a success. On success, the keys are the selected data nodes and each entry holds the comparators' scores over the data read from each scenario. |
| Scenarios.CompareSelected | taipy/core/scenario/_scenario_manager.py:197-201 | One entry per selected data node, holding its comparators' scores. |
| Scenarios.Scores | taipy/core/scenario/_scenario_manager.py:199-201 | Every name in the score map is some comparator's name, and its score is that comparator applied to the data. |
| Scenarios.ScoreAll | taipy/core/scenario/_scenario_manager.py:199-201 | The comprehension builds the score map comparator by comparator. |
| Scenarios.ScoresNames | taipy/core/scenario/_scenario_manager.py:199-201 | The score map has exactly one key per comparator name. |
| Scenarios.ScoresLastWins | taipy/core/scenario/_scenario_manager.py:199-201 | A name's score is the one from the last comparator with that name. |

## Left out

- Years past 9999 are allowed. In Python, every frequency's end overflows for the bucket that contains December 31, 9999: the daily end at line 60, the weekly end at line 62 (the Monday December 27, 9999 plus 7 days), the monthly end at line 65 and the yearly end at line 67 all pass `MAXYEAR` and raise `OverflowError`. The model computes a date in year 10000 instead. The `isoformat` of years past 9999 is not modelled either.
- `uuid` parts of ids are a serial counter kept by each manager, so fresh ids are distinct by construction.
- `datetime.now()` is a `now` parameter.
- The scenario manager's operations take a scenario id and act on the stored copy, so they require the id to be stored. Stale in-memory scenario objects that differ from their stored copy are not modelled.
- Scenarios.ScenarioManager.Delete, Scenarios.ScenarioManager.HardDelete: a missing id raises `AttributeError` in the source. It is modelled as the `NoSuchScenario` error.
- `taipy/core/scenario/scenario.py` is not part of this model. Its behaviour is assumed:
  - `add_subscriber` appends;
  - `remove_subscriber` removes the first registration;
  - tags form a set;
  - the `authorized_tags` property is kept as a separate field copied from the configuration.
- Scenarios.ScenarioManager.Unsubscribe, ScenarioStore.ChangeSubscriber: removing an absent callback changes nothing. This is a guess about `remove_subscriber`, whose file is not part of this model. Python's `list.remove` and `set.remove` raise on an absent element. If it raises, `_unsubscribe(callback, None)` stops at the first scenario without the callback, after saving the earlier ones. That partial failure is not modelled.
- The pipeline manager is reduced to the calls it receives.
  - Pipeline creation is a parameter function.
  - `_submit` and `_hard_delete` calls are recorded in `submissions` and `deletions`.
  - Job execution and the pipeline repository are not modelled.
- Comparator bodies, data-node reads and the `Config.scenarios` lookup are parameters (`apply`, `read`, `configs`).
- Python dictionaries iterate in insertion order; the model picks keys in an unspecified order. Results are stated per key, so they do not depend on the order. The order of the recorded submissions and deletions is not fixed.
- Scenarios.ScenarioManager.ChangeEverySubscription builds the updated map in a loop and stores it once, where the source calls `_set` after each scenario. The final store is the same.
- Scenarios.ScenarioManager.Tag stores the old holder and the tagged scenario in one assignment, where the source makes two `_set` calls.
- Backup:
  - Backup.BackupFile.Remove models the identity test `new_backup is not old_backup` as value inequality. Both rewrite the file with the same text.
  - A missing file is the only swallowed exception modelled. Other I/O errors, newline translation in text mode and encodings are not modelled.
  - The environment variable is an `Option<string>` given at construction.
- Concurrency, events and the notification tests are not modelled.
- The repository factory and the file-system repositories are not modelled; persistence is the in-memory map.
