# A verified model of the stores, protocols and languages of doze-aws

doze-aws answers the AWS APIs from one local process. This project states and proves what five of its parts
promise, in Dafny 4.11. `dafny verify dfyconfig.toml` checks all of it.

* **CloudWatch.** Samples are kept under byte keys, read back by byte range, folded into aligned periods, and judged by
  an M-of-N rule that drives each alarm and writes its history. `Bytes`, `Decimal`, `Sorting`, `SeriesKey`, `SampleKey`,
  `SampleStore`, `Percentiles`, `Aggregate`, `Evaluate`, `AlarmHistory`, `Alarms`.
* **CloudFormation.** A deploy applies a graph of resources; a failed one is undone from a report, two graphs and what a
  template retains; exports belong to one stack each. `Provision`, `Reports`,
  `Rollback`, `Settle`, `Stacks`, `Restoration`.
* **API Gateway.** Route keys, path templates, precedence, the policy glob, the HTTP API record whose references never
  dangle, and the tree of REST resources. `Text`, `RouteKeys`, `PathMatching`, `Policy`, `HttpRecord`, `AutoDeploys`,
  `HttpApi`, `Routing`, `ResourceTree`, `RestResources`.
* **DynamoDB PartiQL.** The tokenizer, the four parsers, the positional binder, and SELECT's fast form against its scan.
  `PartiqlTokens`, `PartiqlParser`, `PartiqlRendering`, `PartiqlBinding`, `PartiqlSelect`.
* **Regions.** Double-checked creation of a region's stack under a read-write lock, as interleaved steps, and what each call
  gets. `Regions`, `RegionCalls`.

Code that changes a record, a bucket or a map in place is a class or a method with loops, proved against functions of
the old state; what is promised of those functions is then proved as lemmas. A class's `Valid()` holds at its
construction and is kept by each of its methods but `RestApi.PatchResource`, which says exactly when it leaves a tree; so
it holds after every run of the others.

## What the code does that its comments do not say

* `cloudwatch/samples.go:168` calls the range half open; it also admits a sample at its end, which bucketing then drops
  (`SampleKey.RangeIsolation`, `Evaluate.PeriodIsStretch`).
* `cloudwatch/samples.go:247-250` says a quiet metric survives the cap. It survives only under the condition of
  `SampleStore.SeriesSurvivesIff`; `SampleStore.QuietSeriesCanVanish` is a case where it does not.
* `cloudwatch/actions.go:194-196` says the extremes bracket the mean; the checks do not (`Aggregate.LoneSummaryAverage`
  says when they do, `Aggregate.SummaryAverageCanEscape` is a case).
* `cloudwatch/evaluate.go:243-245` says a manual mark clears when the metric agrees; only a disagreeing pass clears it
  (`Alarms.MarkLastsUntilDisagreement`; `Alarms.AgreedMarkStillSpares` is a case). PutMetricAlarm drops the mark as well.
* `cloudwatch/evaluate.go:17-21` says an alarm that ignores missing data keeps its state whatever the rest say; the code
  drops the missing periods and judges the rest. It keeps the state exactly under the condition of
  `Evaluate.IgnoreKeepsStateIff`; `Evaluate.IgnoreMovesDespiteMissing` is a case where it does not.
* A rollback recognises what an apply made by the last line reported under kind/name. A bucket that is made and then
  configured, and a rule, which is reported under its bus, are not recognised and outlive the rollback
  (`Restoration.ConfiguredBucketIsLeft`, `Restoration.RuleIsLeft`); a layer whose content differs is reported as made
  and not looked for beforehand, so one that was there is deleted (`Restoration.LayerIsTaken`). Over every apply that
  can fail, exactly which kinds and declarations a rollback restores is `Restoration.RollbackRestoresIff`, with
  `Reports.MidwayIff` and `Reports.AtLastIff` saying what each kind reports when.
* `cloudformation/adopt.go:39-48` owns names without their kinds, so an update can take over an alarm with the name of
  one of its queues, and its rollback deletes it (`Restoration.AdoptedAlarmIsLost`). `Restoration.NothingLostIff` says
  exactly when nothing is lost.
* `cloudformation/rollback.go:205-208` puts the previous record back, but the request's capabilities, notification
  targets, rollback configuration and rollback switch are stored over it afterwards
  (`Restoration.FailedUpdateLeavesItsFields`; exactly when they are not is `Restoration.UpdateRestoresStoredIff`).
* A stack left in CREATE_FAILED is deleted with everything its template names, even when its create was refused for a
  resource that was there and made nothing (`Restoration.DeletingRefusedCreateIff`, `Restoration.DeletingRefusedQueue`).
* `matchResource` breaks ties by iteration order: its answer is unique exactly when no other resource ties with it
  (`Routing.AnswerUniqueIff`), and which templates can tie is `RestResources.CanTieIff`.
  `matchV2Route` does not (`Routing.PickIsUnique`).
* `patchResource` checks neither a parent nor a part, so a resource can become its own descendant
  (`ResourceTree.CircleIsNoTree`); exactly when a tree is left is `ResourceTree.MovedIsTreeIff`.
* A parameter name used twice in a template keeps only its last capture; captures rebuild every request exactly when
  names are distinct (`PathMatching.RebuildsAllIff`).
* `TRUE` in a PartiQL statement binds false (`PartiqlBinding.TrueIsTrueIff`), and a key attribute given two values makes
  SELECT's two forms disagree (`PartiqlSelect.FastPathAgreesIff`).

## Model

| member | source | states |
|---|---|---|
| SeriesKey.DimensionSignature | cloudwatch/store.go:58-77 | the loop over sorted names computes the canonical signature, whatever order the map gives |
| SeriesKey.SignatureInjective | cloudwatch/store.go:58-77 | two dimension sets with one signature are the same set |
| SeriesKey.SeriesKeyOf | cloudwatch/store.go:45-56 | the key is the namespace, the metric and the signature, NUL-separated |
| SeriesKey.KeyInjective | cloudwatch/store.go:45-56 | two series with one key are one series |
| SeriesKey.KeyNotExtendedByNul | cloudwatch/store.go:45-56 | no series' key continues another's with a NUL, so key prefixes do not confuse series |
| Decimal.PaddedOrderIff | cloudwatch/samples.go:96-104 | zero-padded decimals of one width sort as bytes exactly as the numbers do |
| Decimal.ParsePadded | cloudwatch/samples.go:203-216 | parsing a padded decimal gives the number back |
| SampleKey.KeyOrder | cloudwatch/samples.go:96-104 | within a series byte order is (time, sequence) order, both directions |
| SampleKey.SampleKeyInjective | cloudwatch/samples.go:96-104 | a key determines the series, the time and the sequence |
| SampleKey.OtherSeriesOutside | cloudwatch/samples.go:108-110 | no other series' key falls between two keys of a series |
| SampleKey.RangeIsolation | cloudwatch/samples.go:108-110 | the byte range holds exactly the keys of the one series with from <= ms <= to |
| SampleKey.MillisOfKey | cloudwatch/samples.go:203-216 | the digit loop refines the parse of the 13 digits after the series |
| SampleKey.MillisOfSampleKey | cloudwatch/samples.go:200-216 | a stored key gives back the time it was stored with |
| SampleKey.MillisAnywhereOfSampleKey | cloudwatch/samples.go:271-283 | so it does read from its last separator, without knowing the series |
| SampleStore.Store.PutSamples | cloudwatch/samples.go:114-142 | a put stores each observation under its own new key, and the bucket grows by their number |
| SampleStore.RecordedAddsExactly | cloudwatch/samples.go:114-142 | a put overwrites nothing and adds one sample for each observation |
| SampleStore.RecordedHolds | cloudwatch/samples.go:114-142 | each observation is stored with its series, time, place in the call and value |
| SampleStore.PutIsReadBackIff | cloudwatch/samples.go:114-142 | an observation sent alone is read back over exactly the stretches its own time is in: the one sent, or now |
| SampleStore.Store.ReadSamples | cloudwatch/samples.go:168-192 | a range read answers the stored samples of the series in the window, in (time, sequence) order, and no others |
| SampleStore.Store.Sweep | cloudwatch/samples.go:218-269 | the two loops leave exactly the unexpired samples with enough unexpired keys before them; min(unexpired, cap) remain |
| SampleStore.SweptIs | cloudwatch/samples.go:218-269 | none past the cutoff stays, of the others as many as there is room for, and what the cap drops sorts before all it keeps |
| SampleStore.ExcessKeys | cloudwatch/samples.go:251-262 | what the cap drops is the keys with fewer than the excess before them in key order |
| SampleStore.SweepDropsOldest | cloudwatch/samples.go:218-269 | within a series whatever a sweep drops is earlier than all it keeps |
| SampleStore.SeriesSurvivesIff | cloudwatch/samples.go:247-262 | a series survives exactly when enough unexpired keys of any series sort before its newest |
| SampleStore.QuietSeriesCanVanish | cloudwatch/samples.go:247-262 | two series, room for one: the more recent one vanishes whole |
| Percentiles.RankInBounds | cloudwatch/aggregate.go:112-134 | the interpolated rank indexes within the values, rounded either way |
| Percentiles.PercentileMonotone | cloudwatch/aggregate.go:112-134 | a higher percentile is never a smaller value |
| Percentiles.PercentileBounded | cloudwatch/aggregate.go:112-134 | a percentile lies between the extremes, and its ends are values |
| Percentiles.PercentileOfMultiset | cloudwatch/aggregate.go:112-134 | the order of the values does not matter |
| Percentiles.PercentileAtWholeRank | cloudwatch/aggregate.go:112-134 | where pct * (n - 1) is 100 * k it is the k-th order statistic |
| Percentiles.PercentileBetweenRanks | cloudwatch/aggregate.go:112-134 | where pct * (n - 1) is 100 * (k + f), 0 < f < 1, it is (1 - f) of the k-th order statistic and f of the next |
| Percentiles.KthUnique | cloudwatch/aggregate.go:112-134 | a k-th order statistic, told by counting the values below and at most it, is one value |
| Percentiles.MedianOfThree | cloudwatch/aggregate.go:112-134 | the median of 1, 2 and 3 is 2 |
| Aggregate.Bucket.Add | cloudwatch/aggregate.go:69-88 | the running sum, count, extremes and values are those of the records added so far |
| Aggregate.Bucket.Value | cloudwatch/aggregate.go:91-108 | a bucket's value is the statistic of its records |
| Aggregate.StatisticsByName | cloudwatch/aggregate.go:91-108 | each statistic's name names that statistic: sum, count, least minimum, greatest maximum, sum over count, and none a percentile |
| Aggregate.ExtremesAreAttained | cloudwatch/aggregate.go:91-108 | the minimum is the least of the records' minima and the maximum the greatest of their maxima, and each is one of them |
| Aggregate.SumsAddUp | cloudwatch/aggregate.go:91-108 | the sum and the count of two stretches of records together are those of each added up |
| Aggregate.LoneValue | cloudwatch/aggregate.go:69-108 | one value alone has itself as average, sum, minimum and maximum, and counts one |
| Aggregate.LoneSummary | cloudwatch/actions.go:194-216 | one summary alone gives back the sum, the count and the extremes that were sent |
| Aggregate.AlignDownUnique | cloudwatch/aggregate.go:136-143 | the aligned start is the only multiple of the period at or within a period below the time |
| Aggregate.Bucketize | cloudwatch/aggregate.go:145-176 | one bucket for each period that holds a sample of the window, with exactly those, in order of start, none empty |
| Aggregate.SampleInItsPeriod | cloudwatch/aggregate.go:149-165 | a sample of the window is a record of the period its time falls in |
| Aggregate.PeriodsConserve | cloudwatch/aggregate.go:149-176 | over the periods sums, counts and records add up to the window's |
| Aggregate.BucketsConserve | cloudwatch/aggregate.go:149-176 | what bucketing returns adds up to the samples of the window: none lost, none twice |
| Aggregate.AverageBracketed | cloudwatch/aggregate.go:91-108 | when each record's mean lies between its extremes, the period's average lies between its own |
| Aggregate.LoneSummaryAverage | cloudwatch/actions.go:194-216 | an accepted summary's average lies between its extremes exactly when its sum lies between them scaled by its count |
| Aggregate.SummaryAverageCanEscape | cloudwatch/actions.go:194-216 | an accepted summary whose average exceeds its maximum |
| Evaluate.PeriodIsStretch | cloudwatch/evaluate.go:69-110 | what bucketing a byte-range read files under period i is what is stored for that series, unit and period |
| Evaluate.Judge | cloudwatch/evaluate.go:101-122 | every period of the window is judged, one without a bucket as missing |
| Evaluate.WithoutMissing | cloudwatch/evaluate.go:124-139 | dropping missing periods keeps the others and how many breach |
| Evaluate.Resolve | cloudwatch/evaluate.go:124-164 | the counting loop refines the M-of-N rule of each treatment of missing data |
| Evaluate.EvaluateRule | cloudwatch/evaluate.go:69-164 | the whole evaluation decides the rule over the last N complete aligned periods of what is stored |
| Evaluate.MissingAsBreaching | cloudwatch/evaluate.go:124-164 | missing data breaching: ALARM exactly when at least M periods, counted as a set, breach or hold nothing |
| Evaluate.MissingAsGood | cloudwatch/evaluate.go:124-164 | missing data not breaching: ALARM exactly when M periods breach |
| Evaluate.MissingAsMissing | cloudwatch/evaluate.go:124-164 | missing data missing: INSUFFICIENT_DATA exactly when there are periods and all hold nothing, and else ALARM exactly when M breach |
| Evaluate.MissingIgnored | cloudwatch/evaluate.go:124-164 | missing data ignored: the state is kept when all hold nothing, and else is ALARM exactly when M breach |
| Evaluate.VerdictBreachesIff | cloudwatch/evaluate.go:48-66 | a period that holds something breaches exactly when its statistic is on the operator's side of the threshold |
| Evaluate.WindowLags | cloudwatch/evaluate.go:69-83 | the periods follow on each other and the last ends where the period that now falls in starts |
| Evaluate.IgnoreKeepsStateIff | cloudwatch/evaluate.go:124-164 | ignoring missing data keeps the state exactly when every period is missing or the others call for the state the alarm is in |
| Evaluate.IgnoreMovesDespiteMissing | cloudwatch/evaluate.go:124-164 | a missing period, missing data ignored, and the state changes |
| Evaluate.OnlyTheWindowMatters | cloudwatch/evaluate.go:69-83 | nothing outside the window, at or after the current period, of another series or unit can change the decision |
| AlarmHistory.Pad | cloudwatch/alarms.go:186-202 | filling a fixed buffer from the right writes the padded decimal |
| AlarmHistory.KeysDiffer | cloudwatch/alarms.go:173-202 | two history entries never share a key |
| AlarmHistory.SameAlarmOrder | cloudwatch/alarms.go:173-184 | one alarm's keys sort by time, then by arrival |
| AlarmHistory.ReverseInPlace | cloudwatch/alarms.go:350-358 | the swap loop reverses the array |
| AlarmHistory.ReadHistory | cloudwatch/alarms.go:313-358 | a listing is the matching entries in reverse key order, cut to the limit |
| AlarmHistory.ListedIff | cloudwatch/alarms.go:313-358 | an unlimited listing for an alarm holds an entry exactly when it was appended and has the name, the kind and a time in the stretch asked for |
| AlarmHistory.StretchesSplit | cloudwatch/alarms.go:313-358 | a stretch of time split in two asks for the same entries |
| AlarmHistory.LimitKeepsNewest | cloudwatch/alarms.go:313-358 | a positive limit keeps the first that many of a listing, and any other keeps all |
| AlarmHistory.AlarmKeysInOrder | cloudwatch/alarms.go:173-220 | read in byte order one alarm's keys are its entries in the order they were appended |
| AlarmHistory.HistoryNewestFirst | cloudwatch/alarms.go:313-358 | a listing for one alarm is its journal newest first, under a clock that never runs backwards |
| Alarms.Server.PutAlarm | cloudwatch/alarms.go:152-171 | an alarm and its entry are stored together, and every alarm's chain of states is kept |
| Alarms.WriteKeeps | cloudwatch/alarms.go:152-171 | an honest entry extends the chain: its old state is the stored state, its new one the state stored with it |
| Alarms.Server.Transition | cloudwatch/evaluate.go:259-274 | a transition stores the new state with its reason and time, leaves the mark as it is, and appends exactly that entry |
| Alarms.Server.PutMetricAlarm | cloudwatch/actions_alarm.go:23-178 | refused as the checks say; otherwise replaced with its state kept and its mark dropped, and exactly one configuration entry of that alarm and time appended |
| Alarms.PutAcceptedIff | cloudwatch/actions_alarm.go:23-178 | the requests accepted, and those refused for an anomaly operator: exactly these |
| Alarms.DefaultNeedsEveryPeriod | cloudwatch/actions_alarm.go:23-178 | asked for no number of datapoints, an alarm goes to ALARM exactly when every period breaches |
| Alarms.PutAlarmMovesAtOnce | cloudwatch/actions_alarm.go:23-178 | a put alarm keeps its state and its mark is gone, so that the first pass that disagrees moves it |
| Alarms.Server.SetAlarmState | cloudwatch/actions_alarm.go:321-343 | the errors, and on success the state, the mark and one entry |
| Alarms.Server.SetActionsEnabled | cloudwatch/actions_alarm.go:354-382 | toggles exactly the named alarms that exist and differ, and appends one entry for each, in the order they are named |
| Alarms.Server.DeleteAlarms | cloudwatch/alarms.go:270-310 | removes the named alarms that exist, with all their history and no other's |
| Alarms.DeleteKeeps | cloudwatch/alarms.go:270-310 | removing alarms with their history keeps every other alarm's chain |
| Alarms.Server.EvaluateNow | cloudwatch/evaluate.go:231-256 | one pass moves, unmarks or leaves each alarm as its decision on the stored samples says, and appends one entry for each that moves, in order of name |
| Alarms.ChainedMeans | cloudwatch/evaluate.go:259-274 | the chain invariant read pair by pair, both directions |
| Alarms.HistoryIsOneWalk | cloudwatch/evaluate.go:259-274 | after any run an alarm's listed updates chain, newest first, from the stored state back to the first one |
| Alarms.MarkLastsUntilDisagreement | cloudwatch/evaluate.go:236-252 | over any run of passes a mark is still there exactly when none disagreed, and then so is the state |
| Alarms.AgreedMarkStillSpares | cloudwatch/evaluate.go:243-252 | a pass agrees with a hand-set state, the next disagrees, and the state is spared all the same |
| Alarms.ManualStateNeedsTwoDisagreements | cloudwatch/evaluate.go:236-252 | the evaluator leaves a hand-set state only after an earlier disagreeing pass |
| Provision.Did | cloudformation/rollback.go:101-106 | the map a report folds into holds the last operation reported for each resource |
| Reports.LastOpAfter | cloudformation/rollback.go:98-120 | what a report last says of a resource after any number of the calls made for it |
| Reports.MidwayIff | internal/provision/svc_sns.go:17-82 | the kinds and declarations for which an apply that fails between two calls of a resource reports it wrongly: exactly those listed |
| Reports.AtLastIff | internal/provision/svc_events.go:20-95 | the kinds and declarations whose finished report is wrong: exactly those listed |
| Reports.AboutTells | cloudformation/rollback.go:98-120 | what a report says of a resource depends on the calls about it alone, however they are interleaved |
| Reports.TellsThroughoutIff | internal/provision/apply.go:48-83 | wherever an apply fails its report tells the truth of a resource, exactly when its kind, its declaration and its place in the script say so |
| Rollback.Retained | cloudformation/rollback.go:328-347 | the loop's set is the names whose last declaring resource a template says to keep, for this kind of rollback |
| Rollback.RetainsIff | cloudformation/rollback.go:328-347 | a name is retained exactly when the last resource of it declared with anything but Delete is declared Retain, or RetainExceptOnCreate and this is no create being rolled back |
| Rollback.AloneRetained | cloudformation/rollback.go:328-347 | of a resource alone under its name a rolled-back create keeps Retain only, and anything else RetainExceptOnCreate as well |
| Rollback.MadeByApply | cloudformation/rollback.go:98-120 | the resources to undo are those last reported as made and not retained |
| Rollback.CreateRollbackLeaves | cloudformation/rollback.go:170-203 | what a rolled-back create leaves: what was there less what it took for its own, and what it made and kept or did not recognise |
| Settle.Account.Destroy | cloudformation/rollback.go:306-323 | removes all it is given but what is stuck, and names what is left |
| Settle.MarkFailed | cloudformation/stacks.go:494-507 | marks exactly the resources an error names |
| Settle.BlamesIff | cloudformation/stacks.go:494-507 | an error marks the resource of the name taken, or those whose names stand in double quotes in what it says |
| Settle.CollectAttempted | cloudformation/rollback.go:136-148 | the resources something was started on, in order |
| Settle.AttemptedMembers | cloudformation/rollback.go:136-148 | the resources that ended in failure or that some line of the report names, and no other |
| Settle.Account.UndoCreate | cloudformation/rollback.go:170-203 | what is destroyed, the final status, each resource's record, and what of the record stays |
| Settle.Account.UndoUpdate | cloudformation/rollback.go:209-265 | what is destroyed and re-applied, and the record is the previous one but for status, reason, trail and time |
| Settle.Account.SettleFailure | cloudformation/rollback.go:125-165 | how a failed deploy ends under each failure policy, account and record; the trail ends with the final status |
| Settle.Account.RemoveDropped | cloudformation/rollback.go:271-302 | an update deletes what its new template dropped and the old one does not keep, and nothing else |
| Settle.MarkingKeepsRetained | cloudformation/rollback.go:125-165 | marking failures does not change what is retained |
| Stacks.ExportOwner | cloudformation/store.go:279-292 | answers a stack that exports the name if any does |
| Stacks.ExportConflict | cloudformation/stacks.go:1027-1047 | refuses exactly a template an output of which, recorded or conditionally absent, claims a name another stack exports |
| Stacks.RefuseTaken | cloudformation/adopt.go:38-65 | refuses exactly when a looked-for resource is there under a name the stack does not own, and names such a one |
| Stacks.Service.Attempt | cloudformation/stacks.go:407-484 | what a deploy does to the account and what it records, in every outcome |
| Stacks.Service.Deploy | cloudformation/stacks.go:362-484 | refused exactly on a template that does not transpile or an export conflict, touching no resource; no export ever gets a second owner |
| Stacks.RecordedExports | cloudformation/stacks.go:451-484 | whatever a deploy records as exported, old outputs put back included, no other stack exports |
| Stacks.SettledWorld | cloudformation/stacks.go:455-468 | a settled failure leaves the account as the deploy's outcome says |
| Stacks.Service.RecordNested | cloudformation/stacks_nested.go:36-95 | each child's record is what the parent's template says of it, rooted with its parent and exporting nothing; no other record changes |
| Stacks.Service.DropRemovedChildren | cloudformation/stacks_nested.go:98-124 | removes exactly the records of the nest that are no longer declared |
| Stacks.Service.RecordDeployFields | cloudformation/stacks.go:277-292 | a request's fields are stored over the record's when a change is noticed, and nothing else changes |
| Stacks.Service.CreateStack | cloudformation/stacks.go:245-275 | refused exactly for a live stack's name, but for one a change set holds, or when the deploy is; otherwise deployed under the failure policy asked for |
| Stacks.Service.UpdateStack | cloudformation/stacks.go:297-357 | refused exactly for a missing stack, after a failed or rolled-back create, when nothing changes, or when the deploy is; then everything is as it was |
| Stacks.ImporterOf | cloudformation/stacks.go:631-643 | finds a stack that imports an export exactly when there is one |
| Stacks.FindNested | cloudformation/stacks_nested.go:128-145 | finds exactly the live stacks nested in one, at any depth |
| Stacks.Service.DeleteNested | cloudformation/stacks_nested.go:128-145 | marks exactly the live stacks nested at any depth |
| Stacks.Service.DeleteStack | cloudformation/stacks.go:539-612 | refused while protected, nested or imported from; otherwise what is destroyed and which records are buried |
| Restoration.OthersUntouched | cloudformation/rollback.go:16-28 | no deploy, failed or not, touches a resource neither template names |
| Restoration.FailedDeployLeaves | cloudformation/rollback.go:60-253 | what a failed deploy made, new to the stack, stays exactly when the request asks to keep it, it is declared Retain, or it cannot be deleted |
| Restoration.FailedDeployStatus | cloudformation/rollback.go:60-265 | the status a failed deploy ends in under each failure policy, all deletions having worked |
| Restoration.StuckCreateFails | cloudformation/rollback.go:120-190 | a create that cannot delete something it made and does not retain ends in ROLLBACK_FAILED |
| Restoration.UpdateLeaves | cloudformation/rollback.go:268-320 | an update has all its template names, and of what that dropped exactly what the previous template declares Retain or RetainExceptOnCreate or what cannot be deleted |
| Restoration.LostIff | cloudformation/rollback.go:98-120 | a resource that was there is lost to a rollback exactly when the report says it was made, it is not retained, not the stack's own and not stuck |
| Restoration.NothingLostIff | cloudformation/adopt.go:3-13 | wherever an apply fails nothing that was there is lost, exactly when the collision check stops the deploy or the report tells in time of each shared resource that is not the stack's own or retained |
| Restoration.AdoptedAlarmIsLost | cloudformation/adopt.go:39-48 | an alarm with the name of a stack's own queue is taken over by an update and deleted by its rollback |
| Restoration.LookedForIsSafe | cloudformation/adopt.go:34-65 | where shared kinds are looked for and no other kind's name hides one, a failed deploy loses nothing |
| Restoration.UpdateRollbackLeaves | cloudformation/rollback.go:209-265 | what an undone update leaves in the account |
| Restoration.RollbackRestoresIff | cloudformation/rollback.go:98-265 | wherever an apply fails, on a create or an update, the rollback restores the account, exactly when the collision check stops the deploy or the report tells in time of all that is new and not retained |
| Restoration.CreateRestoresIff | cloudformation/rollback.go:170-203 | for a create that goes on only activities and changed layers can be taken; the rest turns on the kinds and declarations of what it makes |
| Restoration.UpdateRestoresRecord | cloudformation/rollback.go:247-265 | the record of an undone update is the previous record but for status, reason, trail and updated time |
| Restoration.UpdateRestoresStoredIff | cloudformation/stacks.go:277-292 | once the request's fields are stored the record is still the previous one but for those, which are as before exactly when no change is noticed or nothing new is sent |
| Restoration.FailedUpdateLeavesItsFields | cloudformation/stacks.go:345-351 | an undone update leaves a capability the stack did not have; one sent in place of another is dropped, for the lists are as long |
| Restoration.DeleteUndoesCreateIff | cloudformation/stacks.go:563-587 | deleting undoes a create, but for what is retained, exactly when nothing it lets go of a kind that is not looked for was there before |
| Restoration.DeleteLeaves | cloudformation/stacks.go:565-585 | deleting a stack leaves of what it named exactly what is declared Retain or RetainExceptOnCreate or cannot be deleted; all, if its create was rolled back |
| Restoration.DeletingRefusedCreateIff | cloudformation/stacks.go:563-587 | deleting a refused, kept create leaves the account as it was exactly when its template lets nothing go that was there |
| Restoration.DeletingRefusedQueue | cloudformation/stacks.go:563-587 | a refused, kept create of a queue that was there: deleting the stack deletes the queue |
| Restoration.ConfiguredBucketIsLeft | internal/provision/svc_s3.go:193 | a bucket made and then configured outlives the rollback |
| Restoration.RuleIsLeft | internal/provision/svc_events.go:92 | a rule outlives the rollback |
| Restoration.LayerIsTaken | internal/provision/svc_lambda_versions.go:55 | a layer whose content differs goes with the rollback, and the collision check does not stop it |
| Text.SplitJoin | apigateway/apigateway.go:161-167 | splitting joined parts at a character none holds gives the parts |
| RouteKeys.NormalisedIsNormal | apigateway/v2_store.go:148-170 | a stored key means what the sent one meant, and storing it again changes nothing |
| RouteKeys.StoredAlikeIff | apigateway/v2_store.go:148-155 | two valid keys are stored alike exactly when they have one method and one path |
| HttpRecord.ApplyRouteInput | apigateway/v2_routes.go:121-192 | accepted exactly when the key is valid and free, the target exists and CUSTOM names an authorizer; then exactly the sent fields change |
| HttpRecord.AdmittedStaysSound | apigateway/v2_routes.go:121-172 | an accepted route keeps every reference and keeps keys distinct |
| AutoDeploys.Prune | apigateway/v2_control.go:360-383 | drops exactly the automatic deployments no stage serves with ten or more newer ones |
| AutoDeploys.PruningSpares | apigateway/v2_control.go:353-383 | no deployment a stage serves, and none made by hand, is pruned |
| AutoDeploys.PruningBounds | apigateway/v2_control.go:353-383 | at most ten unserved automatic deployments stay |
| AutoDeploys.PruningKeepsNewest | apigateway/v2_control.go:353-383 | the ten last made stay, or all if there are no more, and whatever is dropped is older than all unserved ones that stay |
| AutoDeploys.AutoDeploy | apigateway/v2_control.go:341-351 | each auto-deploy stage gets a deployment of its own, the others stay, and the rest is pruned, for every order of the stages |
| AutoDeploys.AutoDeployServesNew | apigateway/v2_control.go:341-351 | each auto-deploy stage then serves a deployment that was not there, is made now, counts as automatic and is not pruned; other stages are as they were |
| AutoDeploys.AutoDeployStaysSound | apigateway/v2_control.go:341-383 | automatic deployment and pruning keep every reference |
| HttpApi.ApplyIntegrationInput | apigateway/v2_integrations.go:129-200 | accepted exactly when what is sent runs locally and says where; then the sent fields change, the kind's defaults are filled in, and the kind is one the data plane runs |
| HttpApi.Handlers.QuickCreate | apigateway/v2_control.go:148-173 | one integration, one route with a normalised key to it, and a served auto-deploy stage |
| HttpApi.Handlers.CreateRoute | apigateway/v2_routes.go:92-115 | exactly the accepted requests add a route; every reference is kept |
| HttpApi.Handlers.UpdateRoute | apigateway/v2_routes.go:51-74 | exactly the accepted requests change the route; a refused one changes nothing |
| HttpApi.Handlers.DeleteRoute | apigateway/v2_routes.go:76-90 | removes the route if it exists |
| HttpApi.Handlers.CreateIntegration | apigateway/v2_integrations.go:27-51 | exactly the accepted requests add one integration, and every reference is kept |
| HttpApi.Handlers.UpdateIntegration | apigateway/v2_integrations.go:79-102 | exactly the accepted requests change one integration, and every reference is kept |
| HttpApi.Handlers.DeleteIntegration | apigateway/v2_integrations.go:104-123 | removed exactly when it exists and no route targets it |
| HttpApi.Handlers.CreateAuthorizer | apigateway/v2_authorizers.go:24-52 | added exactly when named, well formed and no other has the name |
| HttpApi.Handlers.UpdateAuthorizer | apigateway/v2_authorizers.go:80-103 | changes one authorizer in place |
| HttpApi.Handlers.DeleteAuthorizer | apigateway/v2_authorizers.go:105-124 | removed exactly when it exists and no route names it |
| HttpApi.ApplyStageInput | apigateway/v2_stages.go:188-235 | accepted exactly when the deployment exists and access logs go to a log group; then exactly the sent fields change |
| HttpApi.Handlers.CreateStage | apigateway/v2_stages.go:30-60 | exactly the accepted requests add a stage, deployed at once if it auto-deploys and names no deployment |
| HttpApi.Handlers.UpdateStage | apigateway/v2_stages.go:88-114 | exactly the accepted requests change a stage |
| HttpApi.Handlers.DeleteStage | apigateway/v2_stages.go:116-131 | removes the stage if it exists |
| HttpApi.Handlers.CreateDeployment | apigateway/v2_control.go:237-264 | adds a deployment and points the named stage at it |
| HttpApi.Handlers.UpdateDeployment | apigateway/v2_control.go:292-316 | changes a description |
| HttpApi.Handlers.DeleteDeployment | apigateway/v2_control.go:318-336 | removed exactly when it exists and no stage serves it |
| HttpApi.LessStaysSound | apigateway/v2_integrations.go:104-123 | removing what nothing refers to keeps every reference |
| PathMatching.MatchSegments | apigateway/execute.go:179-206 | the loop matches exactly the requests that fit, and captures what the template names |
| PathMatching.FitsIffInstance | apigateway/execute.go:177-206 | a template matches exactly the requests that are an instance of it |
| PathMatching.CapturesUnderName | apigateway/execute.go:177-206 | a segment {name} captures one segment under that name, and {name+} the rest of the path |
| PathMatching.LiteralFitsItself | apigateway/execute.go:177-206 | a segment not in braces fits itself alone |
| PathMatching.IsProxyIff | apigateway/execute.go:177-206 | a template is greedy exactly when a segment of it starts with a brace and ends with a plus and a brace |
| PathMatching.ParamCountIsSize | apigateway/execute.go:208-216 | the parameters counted are the set of segments that start with a brace |
| PathMatching.CapturesRebuildPath | apigateway/execute.go:177-206 | with distinct parameter names the captures rebuild the request path |
| PathMatching.RebuildsAllIff | apigateway/execute.go:177-206 | captures rebuild every fitting request exactly when no two parameters of the template have one name |
| PathMatching.SplitPathSegments | apigateway/apigateway.go:161-167 | no segment of a split path holds a slash and the last is not empty |
| PathMatching.CountParams | apigateway/execute.go:208-216 | counts the segments that start with a brace |
| Routing.BetterIsStrictTotal | apigateway/v2_execute.go:153-173 | precedence is a strict total order on routes with distinct keys |
| Routing.MatchRoute | apigateway/v2_execute.go:139-200 | the best route that answers, "$default" only if none does, in whatever order the map is read |
| Routing.PickComesFirst | apigateway/v2_execute.go:139-200 | of all routes that answer the one picked has no greedy segment if any has none, else none is deeper; then none has fewer parameters, then it names the method if any does, then its key is first |
| Routing.AnswersIff | apigateway/v2_execute.go:139-200 | a key of a method and a path answers exactly the requests for that method, or any under ANY, whose path is an instance of its template |
| Routing.StageIsFirst | apigateway/v2_execute.go:128-136 | the first segment is the stage exactly when it names one, and else the whole is a path on "$default" |
| Routing.PickIsUnique | apigateway/v2_execute.go:139-200 | with distinct keys only one answer is right |
| Routing.Serve | apigateway/v2_execute.go:39-124 | in a sound record the missing-authorizer error is unreachable, and only a route without a target lacks an integration |
| Routing.MatchResource | apigateway/execute.go:140-175 | an exact match with fewest parameters if any matches exactly, otherwise the deepest greedy one, in whatever order |
| Routing.ResolvedIff | apigateway/execute.go:140-175 | the right answers, exactly: instances with no greedy segment and fewest parameters if any has none, and else those none is deeper than |
| Routing.AlsoRightIff | apigateway/execute.go:140-175 | beside one right answer another is right exactly when it fits alike and ties with it in parameters or depth |
| Routing.AnswerUniqueIff | apigateway/execute.go:140-175 | one answer whatever the order, exactly when no other fitting resource ties with it |
| Policy.GlobMatch | apigateway/authorize.go:250-266 | the recursive matcher decides whether the text can be cut into pieces the pattern's characters stand for |
| Policy.MatchesConcatIff | apigateway/authorize.go:249-266 | p+q matches exactly the texts that split into a part for p and a part for q |
| Policy.LiteralMatchesItself | apigateway/authorize.go:249-266 | a pattern without wildcards matches itself and nothing else |
| Policy.Wildcards | apigateway/authorize.go:249-266 | a star matches anything and a question mark any one character |
| Policy.AnyGlob | apigateway/authorize.go:224-231 | whether any resource pattern matches |
| Policy.PolicyAllows | apigateway/authorize.go:199-213 | allowed exactly when no matching statement denies and some matching one allows, in whatever order and however often statements stand |
| Policy.PermittedIff | apigateway/authorize.go:199-231 | permitted exactly when a statement about the method spells "allow" and none spells "deny", in any case |
| Policy.FoldsToIff | apigateway/authorize.go:199-222 | which spellings of a word compare as it |
| ResourceTree.PartsDistinct | apigateway/resources.go:65-80 | no two resources have the same parts from the root |
| ResourceTree.PathSplitsBack | apigateway/store.go:350-368 | a path splits back into its parts |
| ResourceTree.PathsDistinct | apigateway/store.go:350-368 | no two resources have the same path |
| ResourceTree.AllUnderRoot | apigateway/store.go:317-324 | every resource is below the one root |
| ResourceTree.WithoutIsTree | apigateway/resources.go:85-110 | a tree without some subtrees is a tree |
| ResourceTree.MovedIsTreeIff | apigateway/resources.go:112-139 | a resource given another parent and part leaves a tree exactly when the parent is there and not below it, and no other child of it has the part; the root, exactly when it gets no parent |
| ResourceTree.CircleIsNoTree | apigateway/resources.go:112-139 | a resource given its own child as its parent |
| RestResources.RestApi.Root | apigateway/store.go:317-324 | finds the one root, in whatever order the map is read |
| RestResources.RestApi.Walk | apigateway/store.go:356-367 | ends, and makes every path below a resource right |
| RestResources.RestApi.RebuildPaths | apigateway/store.go:350-368 | makes every path that of the parts from the root |
| RestResources.RestApi.CreateResource | apigateway/resources.go:50-83 | hangs exactly the accepted resources, and keeps the tree and the paths |
| RestResources.Remove | apigateway/resources.go:95-102 | the recursive removal takes exactly the resource and its descendants |
| RestResources.RestApi.DeleteResource | apigateway/resources.go:85-110 | deletes exactly a resource and its descendants, never the root, and keeps the tree and the paths |
| RestResources.RestApi.PatchResource | apigateway/resources.go:112-139 | sets the last part and parent sent, unchecked, on that resource alone, and exactly when what results is a tree |
| RestResources.StoredPaths | apigateway/store.go:350-368 | every stored path splits back into the parts from the root, and no two are the same |
| RestResources.TemplatesCanTie | apigateway/execute.go:154-166 | /{a}/x and /y/{b} are both right answers for /y/x |
| RestResources.CanTieIff | apigateway/execute.go:140-175 | two templates, both greedy or neither, fit some request together exactly when no literal of one stands against another literal of the other |
| RestResources.NoTemplatesTie | apigateway/execute.go:140-175 | in an API where no two templates can tie every request has one answer |
| PartiqlTokens.Tokenize | dynamodb/partiql_parse.go:302-346 | the scanning loops refine the longest-token split |
| PartiqlTokens.Quoted | dynamodb/partiql_parse.go:309-330 | the builder loop takes a quoted token up to its closing quote, doubled single quotes included |
| PartiqlTokens.TokenFirst | dynamodb/partiql_parse.go:302-346 | a well-formed token is taken off whole, whatever follows that does not run into it |
| PartiqlTokens.SpacedTokens | dynamodb/partiql_parse.go:302-346 | whatever blank space separates tokens, splitting gives them back |
| PartiqlParser.ParseConditions | dynamodb/partiql_parse.go:225-242 | the loop refines the grammar of conditions |
| PartiqlParser.ParseListed | dynamodb/partiql_parse.go:245-280 | the loops refine the grammar of assignments and map entries |
| PartiqlParser.ParseColumns | dynamodb/partiql_parse.go:146-155 | the loop refines the projection list |
| PartiqlParser.FindKeyword | dynamodb/partiql_parse.go:282-289 | the first place of a keyword in any case |
| PartiqlParser.ParsePartiQL | dynamodb/partiql_parse.go:119-222 | a text parses as its tokens do, for each of the four statements |
| PartiqlRendering.StatementReadsBack | dynamodb/partiql_parse.go:119-222 | the tokens of any statement parse to that statement |
| PartiqlRendering.RenderedReadsBack | dynamodb/partiql_parse.go:119-346 | a statement written down with any blank space its tokens leave room for parses to itself |
| PartiqlRendering.ValuesStandInOrder | dynamodb/partiql.go:92-169 | values are bound in the order they stand in the text, SET before WHERE |
| PartiqlBinding.TextRoundTrip | dynamodb/partiql_parse.go:88-102 | any string, its quotes doubled, is one token and is bound to itself |
| PartiqlBinding.TrueIsTrueIff | dynamodb/partiql_parse.go:103-106 | a true binds true exactly when it is written in lower case |
| PartiqlBinding.LiteralsOfWords | dynamodb/partiql_parse.go:103-116 | a null or a false in any case is bound as such, and what starts as a number as the number it is, or not at all |
| PartiqlBinding.ParamBinder.Value | dynamodb/partiql_parse.go:88-116 | a question mark takes the next parameter or fails; a literal uses none |
| PartiqlBinding.ParamBinder.Bind | dynamodb/partiql_parse.go:50-60 | binds a list exactly when each value can be bound, each to its own |
| PartiqlBinding.ParamBinder.BindStatement | dynamodb/partiql.go:92-169 | binds a statement exactly when each of its values can be bound |
| PartiqlBinding.MarksOfStatement | dynamodb/partiql_parse.go:302-346 | the question marks of a statement's text are those of its values |
| PartiqlBinding.IthMarkGetsIthParameter | dynamodb/partiql_parse.go:88-96 | the i-th question mark of the text is a value and is bound to the i-th parameter |
| PartiqlSelect.Scan | dynamodb/partiql.go:208-236 | the filter keeps exactly the items that meet every condition, each once, projected |
| PartiqlSelect.ScanShows | dynamodb/partiql.go:208-253 | a filtered answer shows each item that has all the values asked for, cut down to the columns, and only these |
| PartiqlSelect.CoversTheKey | dynamodb/partiql.go:256-270 | whether the names are exactly the key attributes |
| PartiqlSelect.RunSelect | dynamodb/partiql.go:175-237 | a full-key WHERE answers as GetItem, any other as the filtered scan |
| PartiqlSelect.GetRefusedIff | dynamodb/partiql.go:183-206 | a full-key WHERE is refused exactly when the last condition on a key attribute is not of its type, and else shows the item under those values |
| PartiqlSelect.KeyHasLast | dynamodb/partiql.go:183-206 | of several conditions on a key attribute the last counts |
| PartiqlSelect.FastPathAgrees | dynamodb/partiql.go:183-206 | with each key attribute bound to one value of its type both forms return the same projected items |
| PartiqlSelect.FastPathAgreesIff | dynamodb/partiql.go:183-206 | over every table of a schema the forms agree exactly then |
| Regions.StepKeepsInv | regions.go:148-207 | every step of every thread keeps the invariant |
| Regions.OneLiveStackPerRegion | regions.go:148-180 | under every interleaving no region has two live stacks |
| Regions.SameAnswer | regions.go:148-180 | calls for one region with no Close between return the same stack |
| Regions.AnsweredStaysLive | regions.go:148-180 | a stack that was answered with is the region's, and live, until a Close |
| RegionCalls.StackForAnswers | regions.go:148-180 | a call ends with the live stack made for the region it asks for, or for the default if it names none, or could not make one |
| RegionCalls.AnswersWereAsked | regions.go:148-180 | every answer was the answer to a call for its region, and is a stack made for that region |
| RegionCalls.ReachedByRun | regions.go:148-180 | every reachable state is the end of a run |
| Regions.SinkEverywhere | regions.go:170-190 | outside the hand-out loop every region's stack has the sink that was set last |
| RegionCalls.SinkIsTheOneSent | regions.go:183-190 | a call that sets the sink ends with the one it sent, and with every region's stack having it |
| Regions.CloseStopsEverything | regions.go:193-207 | after a Close nothing is left running |
| RegionCalls.CloseEndsEmpty | regions.go:193-207 | a Close ends with no region served and no stack live |

## Left out

Assumed of the libraries underneath:

- bbolt: a bucket is a map and a cursor its keys in byte order; a transaction is atomic, and handlers that read and then write in a second transaction are one step.
- `internal/provision`: an apply never deletes and a successful one leaves the whole graph. The calls it makes and the lines it reports are those of `Reports`, kind by kind, in any interleaving of the resources; that no line about a part of a resource (a rule under its bus, a subscription, an alias) is the name of another resource of the graph is assumed. A key whose alias could not be made is nobody's. A destroy is any that leaves a set stuck.
- `internal/cfn`: a template is what it transpiles to, what it retains and its text.
- `internal/ddb`: a table is its live items by primary key, numbers are compared by value, and a scan returns every page.
- Floating point is real arithmetic; times are non-negative integers, milliseconds below 10^13, sequence numbers below 10^10, and names free of the separators 0x00, 0x1e and 0x1f.
- Generated ids are fresh parameters; clocks are parameters that do not run backwards; reason texts and ids are opaque.

Not modelled:

- Sample encoding, the metric catalogue and its paging, `parseStat` (an alarm carries its parsed statistic), metric math, composite and anomaly alarms, actions and tags of alarms.
- SampleStore.Store.PutSamples: the catalogue of series that the same transaction writes is not modelled.
- Alarms.Server.PutMetricAlarm: metric math, action targets, tags and the checks on them are left out.
- Alarms.Server.EvaluateNow: asks for a clock at least two days after the epoch, so that no window starts before it.
- Settle.Account.Destroy: what could not be destroyed is a given set rather than read from the error texts of a report.
- Settle.Account.SettleFailure: of the event trail only the bound and the last event are stated, and reasons are fixed texts.
- Stacks.RefuseTaken: which of several taken names is reported is left open; the code names the first in order.
- Stacks.Service.RecordNested: a parent's resource row does not take on its child's stack id, and children are a list with owners rather than a tree.
- Stacks.FindNested: nested stacks are found level by level rather than by recursion, which would not end on stacks nested in a circle.
- Change sets, drift, stack policies, deletion of change sets, and a dead-letter queue or an event bus an apply makes outside its graph.
- Lookups of stacks by ARN; the check that parameters and references of a template are declared.
- HttpApi.ApplyIntegrationInput: timeouts, connections, credentials and parameter maps are left out.
- HttpApi.Handlers.CreateAuthorizer: an authorizer's own input checks are one flag.
- HttpApi.Handlers.UpdateAuthorizer: the fields that change and their checks are one flag.
- HttpApi.ApplyStageInput: log formats, route settings and tags of a stage are left out.
- CORS, access logs, route settings, tags, usage plans, the authorizer cache and every view and wire format of API Gateway.
- Upper case is exact for ASCII results only, which is all that methods, keywords and types are compared with.
- RestResources.RestApi.PatchResource: a patched resource is a new object in the place of the old, and the paths rebuilt after a patch are not stated.
- RestResources.Remove: returns the smaller map instead of deleting from the shared one; siblings are visited in any order.
- PartiqlRendering.RenderedReadsBack: names hold no double quote, which has no escape, and no value is one of the keywords the parsers look for.
- PartiQL's writes beyond binding: the conditions of INSERT and UPDATE, batches and transactions; errors of a projection over repeated columns.
- Regions.CloseStopsEverything: the services that all regions share, which Close stops as well, are not modelled.
- NewRegions' error path, and progress: that a waiting thread ever gets the lock.
- EventBridge, the console and the remaining services.
