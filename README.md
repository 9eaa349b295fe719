# tartare-tools core, modelled in Dafny

This project models the in-memory logic of tartare-tools, the set of tools that read, combine and
rewrite NTFS public-transport datasets and the POI files used next to them. The file readers,
the OSM extract parsing and the command lines are left out. Each core source file has one Dafny
module, named after it:

- `merge_collections.dfy` (`MergeCollections`) models `try_merge_collections`, which folds one
  dataset into another. Collections keyed by id reject a repeated id. Commercial modes skip
  duplicates. A physical mode met again keeps the larger CO2 value. Other collections are
  concatenated. Positional handles (stop points of stop times, comment links, the side tables
  keyed by journey and sequence) are renumbered through their ids.
- `unify.dfy` (`Unify`) and `fuse.dfy` (`Fuse`) model the two identical field-union policies.
  Codes and comment links are unioned. Object properties are first-wins by key. An id-keyed
  collection merges a record into the one with the same id, or appends it. `upsert.dfy`
  (`Upsert`) holds the merge-or-append fold both use.
- `object_rules.dfy` (`ObjectRules`) models the regrouping rules of apply-rules: the
  configuration check, the reverse indices, creating a target, repointing lines, ticket-use
  perimeters and vehicle journeys, and deleting the absorbed objects.
  `route_consolidation.dfy` (`RouteConsolidation`) models route consolidation.
  `complementary_code.dfy` (`ComplementaryCode`) models complementary codes. `report.dfy`
  (`Report`) models the de-duplicating report, as a class whose two lists the methods extend.
  `rule_report.dfy` (`RuleReport`) holds the report categories.
- `filter.dfy` (`NtfsFilter`, with the `Filter` class) and `filter_main.dfy` (`FilterMain`)
  model filter-ntfs. They cover the `object:property:value` filters, the selection of vehicle
  journeys, extracting or removing them, and cleaning the side tables.
- `transfers_rules.dfy` (`TransfersRules`) models the transfers tool's rules, where the last rule
  for a pair wins. `tartare_transfers.dfy` (`TartareTransfers`) models the mode-based version,
  where the first rule wins. `transfer_model.dfy` (`TransferModel`) holds the transfer map both
  use, keyed by `(from, to)`.
- `piv_read.dfy` (`PivRead`) and `piv_import.dfy` (`PivImport`) model the PIV reader. They cover
  the physical-mode choice, the stop ordering, the get-or-create helpers, the services, the stop
  times, the validity period and the transfers generated inside each stop area.
- `kv1_read.dfy` (`Kv1Read`) models the derivation rules of the KV1 reader: calendars, modes,
  trip properties, routes and notices.
- `naptan.dfy` (`Naptan`) models the NaPTAN reader: stop areas, stops in areas, the generated
  stop areas, and the order of the merges.
- `osm_poi.dfy` (`OsmPoi`) models the OSM POI configuration check and the first-match
  classification of tags. `sytral.dfy` (`SytralPoi`) models the Sytral POI import.
  `poi_merge.dfy` (`PoiMerge`) models the merge of POI archives.
- `improve_stop_positions.dfy` (`ImproveStopPositions`) models the OSM line matching and the
  cleanup of the stop pairings. `read_shapes.dfy` (`ReadShapes`) models the numbering of line
  and route geometries taken from OSM.
- `accessibility.dfy` (`NetexAccessibility`) models the NeTEx accessibility reading.
  `availability.dfy` (`Availabilities`) holds the availability type.
- `wrappers.dfy`, `strings.dfy`, `ordering.dfy`, `seq_facts.dfy`, `dates.dfy` and
  `id_collection.dfy` are shared:
  - `Option` and `Result`;
  - decimal formatting and ASCII lower-casing;
  - the lexicographic order of strings, with iteration over a sorted set;
  - sequence facts and calendar dates;
  - `CollectionWithId`, modelled as a sequence of records with distinct ids, together with the
    `push`, `try_merge`, `merge` and `retain` it offers.

Operations that change a collection step by step are methods with loops, proved against a
function of their inputs. The properties the tools promise are lemmas about those functions:
- success exactly when the input is well formed;
- the first error reported;
- what is kept, added or renumbered;
- the order of the output.

Rust's `&mut Collections` arguments are threaded as values: a call takes the collections and
returns the new ones, or the error.

## Model

| member | source | states |
|---|---|---|
| MergeCollections.Strict | merge-ntfs/src/merge_collections.rs:70-75 | a strict collection merges exactly when no id is on both sides, then appends the incoming records and keeps ids distinct; otherwise the error names the first incoming id that the accumulator already holds |
| MergeCollections.MergeCo2 | merge-ntfs/src/merge_collections.rs:77-97 | the kept CO2 value is absent only when both are, is at least each value that is present, and is one of the two |
| MergeCollections.MergePhysicalModes | merge-ntfs/src/merge_collections.rs:77-97 | the physical-mode loop computes the upsert of the incoming modes into the accumulated ones |
| MergeCollections.PhysicalModesSpec | merge-ntfs/src/merge_collections.rs:77-97 | after the loop, existing modes keep place, id and name and take the larger CO2 value; untouched modes are unchanged; new ids are appended in order; ids stay distinct |
| MergeCollections.Co2Examples | merge-ntfs/src/merge_collections.rs:233-279 | 21 and 42 give 42, nothing and 42 give 42, nothing and nothing give nothing |
| MergeCollections.IdxToId | merge-ntfs/src/merge_collections.rs:129-135 | every handle of the collection maps to the id of the record it designates, and only those handles |
| MergeCollections.GetNewIdx | merge-ntfs/src/merge_collections.rs:120-128 | a handle resolves exactly when its id is in the merged collection, to a position holding that id |
| MergeCollections.TranslatedLinksSpec | merge-ntfs/src/merge_collections.rs:137-152 | each translated comment link designates a merged comment with the id the old link designated; every link that resolves is kept |
| MergeCollections.UpdateCommentIdx | merge-ntfs/src/merge_collections.rs:137-152 | the loop rewrites the links of every object and keeps the object count |
| MergeCollections.AllWithTranslatedLinks | merge-ntfs/src/merge_collections.rs:137-152 | one translated object per input object, in order |
| MergeCollections.RemappedJourney | merge-ntfs/src/merge_collections.rs:165-176 | a journey keeps its id, route and number of stop times, each stop time re-pointed |
| MergeCollections.RemappedStopTimeSpec | merge-ntfs/src/merge_collections.rs:165-176 | a resolving stop time designates the merged stop point with its old stop point's id and keeps its sequence; an unresolved one is unchanged |
| MergeCollections.RemapStopTimes | merge-ntfs/src/merge_collections.rs:165-176 | the nested loop re-points every stop time of every journey |
| MergeCollections.AllRemapped | merge-ntfs/src/merge_collections.rs:165-176 | one re-pointed journey per journey, ids kept |
| MergeCollections.NewIdxMap | merge-ntfs/src/merge_collections.rs:120-128 | the handle map is defined exactly on the handles whose id resolves, each mapped as `get_new_idx` says |
| MergeCollections.NewIdxMapInjective | merge-ntfs/src/merge_collections.rs:179-191 | distinct handles of a collection with distinct ids never resolve to the same handle, so re-keying loses no entry |
| MergeCollections.RekeyedCommentsStop | merge-ntfs/src/merge_collections.rs:204-213 | an entry whose journey or comment does not resolve makes the re-keying panic |
| MergeCollections.RekeyedCommentsAll | merge-ntfs/src/merge_collections.rs:204-213 | when every entry resolves, the result is every entry re-keyed and re-pointed |
| MergeCollections.RekeyComments | merge-ntfs/src/merge_collections.rs:204-213 | the loop computes the re-keyed stop-time comments or the panic |
| MergeCollections.MergeObjects | merge-ntfs/src/merge_collections.rs:70-118 | the first stage succeeds exactly when no strict collection of lines 70-113 shares an id, keeps ids distinct and leaves the later collections untouched; every failure is a duplicate-id error |
| MergeCollections.MergeStops | merge-ntfs/src/merge_collections.rs:154-177 | the stop stage succeeds exactly when comments, stop points, stop areas and journeys share no id, changes only those four collections and keeps ids distinct |
| MergeCollections.MergeSideTables | merge-ntfs/src/merge_collections.rs:179-213 | the side-table stage changes only the three side tables and can fail only by the unwrap panic |
| MergeCollections.MergeRest | merge-ntfs/src/merge_collections.rs:214-220 | the last stage succeeds exactly when calendars, companies, equipments, trip properties and geometries share no id |
| MergeCollections.Merged | merge-ntfs/src/merge_collections.rs:27-223 | a successful merge keeps every collection's ids distinct |
| MergeCollections.RemappedIds | merge-ntfs/src/merge_collections.rs:165-177 | re-pointing stop times keeps journey ids, so the re-check at line 176 never fails |
| MergeCollections.StopsWithLinksIds | merge-ntfs/src/merge_collections.rs:159-163 | translating comment links keeps the stops' ids |
| MergeCollections.MergeObjectsInto | merge-ntfs/src/merge_collections.rs:70-118 | the imperative first stage agrees with `MergeObjects` |
| MergeCollections.MergeStopsInto | merge-ntfs/src/merge_collections.rs:154-177 | the imperative stop stage agrees with `MergeStops` |
| MergeCollections.MergeSideTablesInto | merge-ntfs/src/merge_collections.rs:179-213 | the imperative side-table stage agrees with `MergeSideTables` |
| MergeCollections.TryMergeCollections | merge-ntfs/src/merge_collections.rs:27-223 | `try_merge_collections` computes `Merged` |
| MergeCollections.NewIdxAppended | merge-ntfs/src/merge_collections.rs:120-128 | an incoming handle resolves to its own position shifted past the accumulator; a handle beyond the incoming collection does not resolve |
| MergeCollections.MergeStopsContents | merge-ntfs/src/merge_collections.rs:154-177 | the stop stage appends the incoming comments, the stops with translated links and the journeys with re-pointed stop times |
| MergeCollections.MergedContents | merge-ntfs/src/merge_collections.rs:70-220 | field by field: strict and id-less collections are concatenated, commercial modes, pathways and levels skip existing ids, physical modes are upserted |
| MergeCollections.RekeyedCommentsNone | merge-ntfs/src/merge_collections.rs:204-213 | with handle maps over the first n journeys and m comments, re-keying fails exactly on an entry outside those bounds |
| MergeCollections.SideTablesOk | merge-ntfs/src/merge_collections.rs:204-213 | after the stop stage, the side tables panic exactly when an incoming stop-time comment does not resolve |
| MergeCollections.MergedOk | merge-ntfs/src/merge_collections.rs:27-223 | the merge succeeds exactly when no strict collection shares an id and every incoming stop-time comment resolves |
| MergeCollections.MergedPanics | merge-ntfs/src/merge_collections.rs:204-213 | the merge panics exactly when the earlier strict merges succeed and a stop-time comment does not resolve |
| MergeCollections.MergedErrors | merge-ntfs/src/merge_collections.rs:70-219 | every other failure is the "identifier … already exists" error |
| MergeCollections.MergedStopTime | merge-ntfs/src/merge_collections.rs:165-176 | after the merge, an incoming stop time keeps its sequence and designates its stop point shifted past the accumulator's; a dangling handle is left unchanged |
| MergeCollections.MergedCommentLinks | merge-ntfs/src/merge_collections.rs:137-160 | after the merge, an incoming stop point's links to incoming comments are shifted past the accumulator's comments; dangling links are dropped |
| MergeCollections.MergedEntry | merge-ntfs/src/merge_collections.rs:179-213 | a side-table entry of the incoming side sits at its journey shifted past the accumulator's journeys and wins over an existing one; other existing entries are kept |
| MergeCollections.MergedWithItself | merge-ntfs/src/merge_collections.rs:70 | merging a dataset with a contributor into itself fails on the contributors |
| Unify.ObjectPropertiesUnify | merge-ntfs/src/unify.rs:69-76 | the loop inserts exactly the pairs of `other` whose key was not a key of `self` before the call |
| Unify.PropertiesKeepExisting | merge-ntfs/src/unify.rs:69-76 | under a key `self` already had, the pairs after the call are exactly those `self` had: existing values never change |
| Unify.PropertiesAddNewKeys | merge-ntfs/src/unify.rs:70-75 | every pair of `other` under a new key is inserted |
| Unify.PropertiesSameNewKeyTwice | merge-ntfs/src/unify.rs:70-75 | two pairs of `other` sharing one new key are both inserted, since the keys are captured once before the loop |
| Unify.PropertiesIdempotent | merge-ntfs/src/unify.rs:69-76 | unifying properties with themselves changes nothing |
| Unify.UnifyObjectSpec | merge-ntfs/src/unify.rs:49-114 | per kind: id and scalar fields stay those of `self`; codes and comment links become the unions (networks union only codes, stop locations only comment links); properties only grow, within the union |
| Unify.UnifyNetwork | merge-ntfs/src/unify.rs:61-65 | a network gains the other's codes and nothing else |
| Unify.UnifyObjectIdempotent | merge-ntfs/src/unify.rs:49-114 | unifying a record with an identical copy gives the record back |
| Unify.UnifyCollection | merge-ntfs/src/unify.rs:29-35 | `Collection::unify` appends every object of `other` in order, duplicates included |
| Unify.UnifyKeepsKey | merge-ntfs/src/unify.rs:78-114 | unifying two records never changes the id of the first |
| Unify.UnifyCollectionWithId | merge-ntfs/src/unify.rs:37-47 | the loop computes the upsert of `other` into the collection |
| Unify.UnifyWithIdSpec | merge-ntfs/src/unify.rs:37-47 | each existing record is unified in place with the record of `other` carrying its id, new ids are appended in order, ids stay distinct, and the size grows by the number of new ids only |
| Fuse.ObjectPropertiesFuse | merge-ntfs/src/fuse.rs:69-76 | fused properties are first-wins against `self`'s keys before the call: values under those keys are unchanged and every pair under a new key is added |
| Fuse.FuseObject | merge-ntfs/src/fuse.rs:49-114 | fusing a record is the same per-kind union as unifying it, so the id is kept and codes, links and properties only grow |
| Fuse.FuseCollection | merge-ntfs/src/fuse.rs:29-35 | `Collection::fuse` appends every object of `other` in order |
| Fuse.FuseCollectionWithId | merge-ntfs/src/fuse.rs:37-47 | existing records are fused in place with the record of the same id, new ids are appended, ids stay distinct |
| Upsert.UpsertIds | merge-ntfs/src/unify.rs:37-47 | after the insert-or-combine loop, existing ids stay in place, the id set is the union of both sides, and ids stay distinct |
| Upsert.UpsertSpec | merge-ntfs/src/unify.rs:37-47 | with distinct ids on both sides, the loop combines each existing record with its match and appends the records with new ids in order |
| Upsert.UpsertSize | merge-ntfs/src/unify.rs:37-47 | the collection grows by the number of new ids only |
| ObjectRules.InsertIdsSpec | apply-rules/src/apply_rules/object_rule.rs:77-94 | inserting ids into the used set succeeds exactly when they are pairwise distinct and none was used before; the failure quotes an id found twice |
| ObjectRules.CheckedRulesSpec | apply-rules/src/apply_rules/object_rule.rs:77-94 | a category is accepted exactly when every rule names its target as a string and no id occurs twice among all targets and grouped ids; a refusal is "Key … is required", "Value for … must be filled in" or the repeated-id message |
| ObjectRules.CheckRules | apply-rules/src/apply_rules/object_rule.rs:77-94 | the loop over one local set of used ids succeeds and fails as `CheckedRules` says, with the same message |
| ObjectRules.ConfigurationIndependent | apply-rules/src/apply_rules/object_rule.rs:95-103 | the configuration is accepted exactly when each category is on its own; a refused network category gives the error |
| ObjectRules.SelfGroupingRejected | apply-rules/src/apply_rules/object_rule.rs:77-94 | a rule that groups its own target makes its category invalid |
| ObjectRules.RuleIdsAt | apply-rules/src/apply_rules/object_rule.rs:77-94 | the ids checked are each rule's target followed by its grouped ids, in configuration order |
| ObjectRules.CheckConfiguration | apply-rules/src/apply_rules/object_rule.rs:76-105 | `check_configuration` checks networks, then commercial modes, then physical modes |
| ObjectRules.New | apply-rules/src/apply_rules/object_rule.rs:107-190 | `ObjectRule::new` validates the configuration before building any index |
| ObjectRules.IndexByExact | apply-rules/src/apply_rules/object_rule.rs:143-176 | an index entry lists exactly the records referring to an existing target, and only referred targets have an entry |
| ObjectRules.PerimetersByNetworkExact | apply-rules/src/apply_rules/object_rule.rs:128-141 | a perimeter index entry lists exactly the network perimeters naming that id |
| ObjectRules.BuiltFits | apply-rules/src/apply_rules/object_rule.rs:107-190 | the indices are built from the unmodified model, point into it, and a category has indices exactly when it has rules |
| ObjectRules.RepointAll | apply-rules/src/apply_rules/object_rule.rs:294-360 | the index loop rewrites exactly the listed records |
| ObjectRules.Updated | apply-rules/src/apply_rules/object_rule.rs:291-366 | a category's update closure keeps collection sizes and never touches networks or modes |
| ObjectRules.Update | apply-rules/src/apply_rules/object_rule.rs:291-366 | the imperative closure agrees with `Updated` |
| ObjectRules.Regroup | apply-rules/src/apply_rules/object_rule.rs:203-225 | `regroup` computes `Regrouped`, records its errors in the report and leaves the warnings alone |
| ObjectRules.RegroupedRefs | apply-rules/src/apply_rules/object_rule.rs:203-225 | records referring to any existing grouped id now refer to the target; all other records are unchanged |
| ObjectRules.UpdatedChanged | apply-rules/src/apply_rules/object_rule.rs:291-366 | an update reports a change exactly when the index has an entry for the absorbed id |
| ObjectRules.RegroupedChanged | apply-rules/src/apply_rules/object_rule.rs:213-224 | `changed` is true exactly when some existing grouped id has referring records, the OR of the updates |
| ObjectRules.RegroupedErrors | apply-rules/src/apply_rules/object_rule.rs:213-219 | one ObjectNotFound error per missing grouped id, in order |
| ObjectRules.Apply | apply-rules/src/apply_rules/object_rule.rs:226-271 | `apply` computes `Applied` and records its rows; on failure the report is untouched |
| ObjectRules.Finish | apply-rules/src/apply_rules/object_rule.rs:245-269 | once the target exists: regroup, then delete or report, as `Finished` says |
| ObjectRules.AppliedFails | apply-rules/src/apply_rules/object_rule.rs:232-240 | a rule fails exactly when its target id is missing or not a string, or when an absent target cannot be built from its properties |
| ObjectRules.AppliedIs | apply-rules/src/apply_rules/object_rule.rs:226-271 | a readable rule whose target exists or can be built succeeds, with the target present before regrouping |
| ObjectRules.AppliedRefs | apply-rules/src/apply_rules/object_rule.rs:238-246 | an absent target is pushed before any repointing; records referring to an existing grouped id then refer to the target, and the others are unchanged |
| ObjectRules.AppliedTargets | apply-rules/src/apply_rules/object_rule.rs:238-252 | afterwards the target exists; if something was repointed, exactly the grouped records are removed, and otherwise nothing is |
| ObjectRules.AppliedRows | apply-rules/src/apply_rules/object_rule.rs:213-268 | one error per missing grouped id; if nothing was repointed, an UnknownPropertyValue warning for a created target or a "rule … was not applied" error for an existing one |
| ObjectRules.TargetKept | apply-rules/src/apply_rules/object_rule.rs:246-251 | after an accepted configuration, removing the grouped records never removes the target |
| ObjectRules.AppliedAll | apply-rules/src/apply_rules/object_rule.rs:288-320 | applying a category's rules in turn keeps collection sizes |
| ObjectRules.ApplyCategory | apply-rules/src/apply_rules/object_rule.rs:288-320 | the loop over one category's rules agrees with `AppliedAll`; the first failing rule aborts |
| ObjectRules.ApplyRules | apply-rules/src/apply_rules/object_rule.rs:273-366 | networks, then commercial modes, then physical modes, each only when it has rules |
| ObjectRules.Run | apply-rules/src/apply_rules/mod.rs:53-61 | the rule is built from the unmodified model and then applied; a refused configuration fails before the report or any collection changes |
| Report.RecordSpec | src/report.rs:34-52 | recording keeps the rows in place, gains the new row at most once, and never lets a duplicate in |
| Report.RecordIdempotent | src/report.rs:39-51 | recording the same row twice is recording it once |
| Report.RecordAllPresent | src/report.rs:39-41 | recording rows that are already there changes nothing |
| Report.RecordAllPrefix | src/report.rs:39-41 | earlier rows stay a prefix, in first-insertion order |
| Report.RecordAllMembers | src/report.rs:34-42 | afterwards the list holds exactly the rows of both |
| Report.RecordAllNoDuplicates | src/report.rs:34-42 | recording never lets a duplicate in |
| Report.RecordAllTwice | src/report.rs:39-41 | recording a batch twice is recording it once |
| Report.RecordAllConcat | src/report.rs:34-42 | recording `a` then `b` is recording `a + b` |
| Report.Report.constructor | src/report.rs:23-30 | a default report has no warnings and no errors |
| Report.Report.AddWarning | src/report.rs:34-42 | `add_warning` records the row among the warnings and leaves the errors unchanged |
| Report.Report.AddError | src/report.rs:44-52 | `add_error` records the row among the errors and leaves the warnings unchanged |
| RouteConsolidation.GenerateRouteId | apply-rules/src/apply_rules/route_consolidation.rs:100-102 | the target id is the line id, a '-' and the direction, and each part can be read back from it |
| RouteConsolidation.RoutesByDirectionKeys | apply-rules/src/apply_rules/route_consolidation.rs:104-123 | the directions are exactly those of the line's routes that have a direction and are not that direction's target |
| RouteConsolidation.RoutesByDirectionIds | apply-rules/src/apply_rules/route_consolidation.rs:104-123 | each direction lists the ids of its routes to regroup, in collection order |
| RouteConsolidation.TargetNotRegrouped | apply-rules/src/apply_rules/route_consolidation.rs:111-114 | a direction's group never holds the route carrying its generated id |
| RouteConsolidation.RouteIdTargetSpec | apply-rules/src/apply_rules/route_consolidation.rs:125-158 | an absent target is pushed as a new route of the line and direction; an existing one on the line with the same direction or none is used as is; one on another line or in another direction is an error saying which |
| RouteConsolidation.Reattached | apply-rules/src/apply_rules/route_consolidation.rs:84-98 | reattaching keeps the number of journeys and changes nothing but their route |
| RouteConsolidation.MatchingIdx | apply-rules/src/apply_rules/route_consolidation.rs:84-98 | the positions collected are ascending and within the journeys |
| RouteConsolidation.ReattachVehicleJourneys | apply-rules/src/apply_rules/route_consolidation.rs:84-98 | the loop sets the route of exactly the journeys whose route is regrouped; the others are unchanged |
| RouteConsolidation.GatheredCodesSpec | apply-rules/src/apply_rules/route_consolidation.rs:56-59 | a code is gathered exactly when it is a code of an existing regrouped route or the `ntfs_source` code naming one |
| RouteConsolidation.FirstWinsKeys | apply-rules/src/apply_rules/route_consolidation.rs:60-75 | after the properties loop the keys are those present before and those of the pairs |
| RouteConsolidation.FirstWinsValues | apply-rules/src/apply_rules/route_consolidation.rs:60-75 | first wins: a key present before keeps its value, any other key takes its first pair's value |
| RouteConsolidation.FirstWinsCount | apply-rules/src/apply_rules/route_consolidation.rs:60-75 | every pair is either inserted under a new key or reported by one MultipleValue warning |
| RouteConsolidation.FromIterLast | apply-rules/src/apply_rules/route_consolidation.rs:50-55 | collecting pairs into a map keeps, for each key, the value of its last pair |
| RouteConsolidation.InitialPropsSpec | apply-rules/src/apply_rules/route_consolidation.rs:50-55 | the target starts with one value per key of its own properties, the greatest one |
| RouteConsolidation.ReattachedRoutesSpec | apply-rules/src/apply_rules/route_consolidation.rs:44-82 | only the target changes: it gains the gathered codes and the first-wins properties; every other route and every id stay |
| RouteConsolidation.FirstWinsAppend | apply-rules/src/apply_rules/route_consolidation.rs:60-75 | the properties loop over `a + b` is the loop over `a`, then over `b` |
| RouteConsolidation.AbsorbProperties | apply-rules/src/apply_rules/route_consolidation.rs:60-75 | the loop over one route's pairs computes `FirstWins` and files its warnings |
| RouteConsolidation.ReattachCodesAndProperties | apply-rules/src/apply_rules/route_consolidation.rs:44-82 | `reattach_codes_and_object_properties` computes `ReattachedRoutes` and files its warnings |
| RouteConsolidation.RetainNotRegrouped | apply-rules/src/apply_rules/route_consolidation.rs:203-206 | deleting the regrouped routes leaves exactly the other ids |
| RouteConsolidation.RetainedIds | apply-rules/src/apply_rules/route_consolidation.rs:196-206 | reattaching then deleting leaves the ids that were not regrouped |
| RouteConsolidation.DirectionSkipped | apply-rules/src/apply_rules/route_consolidation.rs:178-191 | an unusable target leaves everything unchanged and files one warning |
| RouteConsolidation.DirectionRoutes | apply-rules/src/apply_rules/route_consolidation.rs:176-206 | with a usable target, no regrouped route is left, the target is there, and every other route stays |
| RouteConsolidation.DirectionJourneys | apply-rules/src/apply_rules/route_consolidation.rs:192-195 | every journey of a regrouped route now runs on the target; no journey is added or removed; lines and networks are untouched |
| RouteConsolidation.NothingToConsolidate | apply-rules/src/apply_rules/route_consolidation.rs:166-175 | a line with nothing to regroup is left as is, with one ConsolidationNotApplied warning naming the line and the rule |
| RouteConsolidation.ConsolidateDirection | apply-rules/src/apply_rules/route_consolidation.rs:176-206 | the direction loop's body computes `DirectionStep` and files its warnings |
| RouteConsolidation.ConsolidateDirections | apply-rules/src/apply_rules/route_consolidation.rs:176-207 | the direction loop computes `Directions` |
| RouteConsolidation.DirectionOrderMatters | apply-rules/src/apply_rules/route_consolidation.rs:104-207 | the order of the directions decides which routes survive: for line `L` with route `L-B` in direction `A` and route `X` in direction `B`, visiting `A` first removes `X`, visiting `B` first keeps it |
| RouteConsolidation.ConsolidateLine | apply-rules/src/apply_rules/route_consolidation.rs:163-207 | the line loop's body computes `LineStep` |
| RouteConsolidation.ApplyRouteConsolidation | apply-rules/src/apply_rules/route_consolidation.rs:160-209 | `apply_route_consolidation` computes `Consolidated` |
| RouteConsolidation.NetworkLines | apply-rules/src/apply_rules/route_consolidation.rs:268-276 | a network rule consolidates exactly the lines of that network, in collection order |
| RouteConsolidation.RuleAppliedErrors | apply-rules/src/apply_rules/route_consolidation.rs:246-290 | an unknown line or network changes nothing and files exactly one ObjectNotFound error; a known one files none |
| RouteConsolidation.ReadRowsSpec | apply-rules/src/apply_rules/route_consolidation.rs:222-234 | each row gives a rule or a warning; the rules are exactly those of the rows, all of them in file order when every row deserialises; each unreadable row gives an InvalidFile warning naming the file and quoting the error |
| RouteConsolidation.ReadRouteConsolidationFile | apply-rules/src/apply_rules/route_consolidation.rs:211-236 | the reading loop returns the rules `ReadRows` gives and files its warnings; errors are untouched |
| RouteConsolidation.ApplyRuleSeq | apply-rules/src/apply_rules/route_consolidation.rs:245-292 | the loop over the rules read computes `RulesApplied` and files its warnings and errors |
| RouteConsolidation.ApplyRules | apply-rules/src/apply_rules/route_consolidation.rs:238-295 | without a rule file nothing changes; otherwise the InvalidFile warnings of the unreadable rows come first, then the rules read are applied in file order with their warnings and errors |
| ComplementaryCode.CodeOrder | apply-rules/src/apply_rules/complementary_code.rs:28-36 | the derived order of a complementary code is a strict total order |
| ComplementaryCode.Sorted | apply-rules/src/apply_rules/complementary_code.rs:43-64 | the set's rules are yielded once each, in ascending order |
| ComplementaryCode.ReadRules | apply-rules/src/apply_rules/complementary_code.rs:50-62 | the rules read are exactly the rows that parse, duplicates merged |
| ComplementaryCode.ReadWarnings | apply-rules/src/apply_rules/complementary_code.rs:50-60 | the warnings are exactly one InvalidFile warning per row that does not parse, in row order, each naming its file and quoting the error |
| ComplementaryCode.ReadRuleFile | apply-rules/src/apply_rules/complementary_code.rs:50-62 | the loop over one file's rows agrees with `Read` and files its warnings |
| ComplementaryCode.ReadComplementaryCodeRulesFiles | apply-rules/src/apply_rules/complementary_code.rs:38-65 | all rows of all files in turn, then the rules in ascending order |
| ComplementaryCode.InsertedSpec | apply-rules/src/apply_rules/complementary_code.rs:67-93 | an unknown id leaves the collection unchanged with one ObjectNotFound warning; a known one gains the code on that object alone, with no warning |
| ComplementaryCode.InsertedIdempotent | apply-rules/src/apply_rules/complementary_code.rs:89-92 | inserting the same code twice is inserting it once |
| ComplementaryCode.InsertCode | apply-rules/src/apply_rules/complementary_code.rs:67-93 | `insert_code` computes `Inserted` and files its warning |
| ComplementaryCode.WithDesignated | apply-rules/src/apply_rules/complementary_code.rs:101-108 | replacing the designated collection changes no other collection |
| ComplementaryCode.AppliedOthersUnchanged | apply-rules/src/apply_rules/complementary_code.rs:101-108 | a rule only ever changes the collection its object type designates |
| ComplementaryCode.DispatchCode | apply-rules/src/apply_rules/complementary_code.rs:101-108 | one rule is dispatched to lines, routes, stop points or stop areas by its object type |
| ComplementaryCode.ApplyCodes | apply-rules/src/apply_rules/complementary_code.rs:100-106 | the rules are applied in the order given |
| ComplementaryCode.ApplyRules | apply-rules/src/apply_rules/complementary_code.rs:95-108 | the rules of all files are de-duplicated, sorted and each applied to the collection it designates |
| NtfsFilter.AddedValues | filter-ntfs/src/filter.rs:54-66 | adding puts exactly the value into its own object type and property, creating either level when missing, and leaves every other set as it was |
| NtfsFilter.AddedTriples | filter-ntfs/src/filter.rs:54-66 | the triples after an addition are the triples before plus the new one |
| NtfsFilter.Filter.constructor | filter-ntfs/src/filter.rs:47-52 | a new filter has the given action and no triple |
| NtfsFilter.Filter.Add | filter-ntfs/src/filter.rs:54-66 | `add` updates the nested maps as `Added` says and keeps the action |
| NtfsFilter.JourneysOfNetwork | filter-ntfs/src/filter.rs:75-84 | the journeys a network selects are exactly those running on a route of one of its lines |
| NtfsFilter.JourneysOfLineCode | filter-ntfs/src/filter.rs:89-100 | a line code selects the journeys of every line with that code, and nothing when no line has it |
| NtfsFilter.JourneysOfLine | filter-ntfs/src/filter.rs:102-111 | the journeys a line selects are exactly those running on one of its routes |
| NtfsFilter.FilterByProperty | filter-ntfs/src/filter.rs:117-129 | a selection only holds positions of existing journeys |
| NtfsFilter.FilterByPropertyFails | filter-ntfs/src/filter.rs:75-129 | a triple fails exactly when its property is not one of its object type's (`network_id`; `line_code`, `line_id`) or names a network or line that does not exist; a line code never fails |
| NtfsFilter.TripleOrder | filter-ntfs/src/filter.rs:156-168 | the order the triples are visited in is a strict total order |
| NtfsFilter.Visited | filter-ntfs/src/filter.rs:156-168 | every triple of the filter is visited, and nothing else |
| NtfsFilter.Selected | filter-ntfs/src/filter.rs:169-178 | the selection fold only holds positions of existing journeys |
| NtfsFilter.SelectedOk | filter-ntfs/src/filter.rs:169-178 | the selection succeeds if and only if every triple does |
| NtfsFilter.SelectedUnion | filter-ntfs/src/filter.rs:172-177 | a successful selection is the union of the triples' selections |
| NtfsFilter.SelectedError | filter-ntfs/src/filter.rs:172-178 | a failed selection carries the error of the first failing triple, every earlier one having succeeded |
| NtfsFilter.FilterFromIdxSet | filter-ntfs/src/filter.rs:131-145 | Extract keeps exactly the selected journeys, Remove exactly the others |
| NtfsFilter.UpdatedStopTimeAttributes | filter-ntfs/src/filter.rs:147-152 | exactly the entries of journeys still present remain, with their values |
| NtfsFilter.FilterModelSpec | filter-ntfs/src/filter.rs:155-206 | a successful filtering keeps at least one journey, keeps exactly the selected (Extract) or unselected (Remove) ones, leaves networks, lines and routes alone, and leaves no stop-time entry of a journey that is gone |
| NtfsFilter.FilterModelFails | filter-ntfs/src/filter.rs:155-206 | a filtering fails with the first triple's error, or because no journey is left |
| FilterMain.IntoAction | filter-ntfs/src/main.rs:18-25 | the command-line action converts one to one into the filter's |
| FilterMain.FindColon | filter-ntfs/src/main.rs:69-71 | the position found holds the first `:`, and none is found only when there is no `:` |
| FilterMain.SplitSpec | filter-ntfs/src/main.rs:69-77 | a filter string splits into property and value around its first `:`, and fails, quoting the string, exactly when it holds none |
| FilterMain.SplitJoin | filter-ntfs/src/main.rs:69-77 | a property without `:` and any value joined by `:` split back into themselves |
| FilterMain.AddFiltersOk | filter-ntfs/src/main.rs:63-82 | `add_filters` succeeds if and only if every string holds a `:` |
| FilterMain.AddFiltersAdded | filter-ntfs/src/main.rs:63-82 | when it succeeds, every pair has been added in order |
| FilterMain.AddFiltersFirstError | filter-ntfs/src/main.rs:68-79 | when it fails, the error quotes the first string without `:`, and exactly the strings before it have been added |
| FilterMain.AddFiltersRest | filter-ntfs/src/main.rs:68-79 | once a string has failed, later strings change nothing |
| FilterMain.AddFilterStrings | filter-ntfs/src/main.rs:63-82 | the loop of `add_filters` computes `AddFilters` on the filter and keeps its action |
| FilterMain.BuildFilter | filter-ntfs/src/main.rs:88-91 | the network strings are added first, then the line strings, the first failure ending the run with its error |
| TransferModel.Collected | transfers/src/rules.rs:141-154 | the transfers collected by pair of stops: every transfer sits under its own pair |
| TransferModel.CollectedKeys | transfers/src/rules.rs:141-154 | the pairs of the map are exactly those of the transfers |
| TransferModel.CollectedLastWins | transfers/src/rules.rs:141-154 | for each pair the map holds the last transfer with that pair |
| TransferModel.CollectedWhere | src/transfers/rules.rs:86-112 | the transfers that need one collected by pair: every transfer sits under its own pair |
| TransferModel.CollectedWhereKeys | src/transfers/rules.rs:86-112 | a pair is in the map if and only if some kept transfer has it |
| TransferModel.CollectedWhereValues | src/transfers/rules.rs:86-112 | the map holds only kept transfers of the dataset |
| TransferModel.CollectedWhereLastWins | src/transfers/rules.rs:86-112 | for each pair the map holds the last kept transfer with that pair |
| TransferModel.RemoveUnwanted | transfers/src/rules.rs:293-314 | the transfers whose pair a rule names are dropped, and only those; the others keep their value |
| TransferModel.RemoveUnwantedKeyed | transfers/src/rules.rs:293-314 | removing keeps every transfer under its own pair |
| TransferModel.SortedKeys | transfers/src/rules.rs:131-134 | the pairs of a set, each once, in strictly ascending order |
| TransferModel.SortedSpec | transfers/src/rules.rs:131-134 | the output holds the transfers of the map and only those, one per pair |
| TransferModel.SortedAscending | transfers/src/rules.rs:131-134 | the output is sorted by `(from_stop_id, to_stop_id)`, strictly |
| TransferModel.SortedHas | transfers/src/rules.rs:131-134 | a pair has a transfer in the output if and only if it has one in the map, and then it is the map's |
| TransfersRules.PointsOfArea | transfers/src/rules.rs:67-72 | the stop points of an area are exactly those whose stop area it is |
| TransfersRules.ProductSpec | transfers/src/rules.rs:95-106 | the expansion holds one stop-point rule per pair of a `from` and a `to` stop point, each carrying the rule's times |
| TransfersRules.StopPointIdsOnSide | transfers/src/rules.rs:58-84 | a stop point stands for itself, a stop area for its stop points |
| TransfersRules.ExpandedPoints | transfers/src/rules.rs:57-108 | a stop-point rule expands to itself, with no warning |
| TransfersRules.ExpandedUnknownArea | transfers/src/rules.rs:73-81 | a rule naming an unknown stop area expands to nothing and files an OnNonExistentStop warning |
| TransfersRules.ExpandedSides | transfers/src/rules.rs:57-108 | each expanded rule joins a stop point of the `from` side to one of the `to` side and carries the rule's times |
| TransfersRules.NeedTransferSpec | transfers/src/rules.rs:156-195 | without `only_inter` every pair needs a transfer; with it, a pair needs one if and only if both stops have contributors and those differ; a stop without contributors is reported as OnUnreferencedStop |
| TransfersRules.InsertRuleAccepted | transfers/src/rules.rs:208-224 | an accepted rule replaces any rule of its pair, the replaced one being reported as Ignored: the last rule wins |
| TransfersRules.InsertRuleDropped | transfers/src/rules.rs:225-264 | any other rule leaves the map alone and is reported as Ignored when no transfer is needed, OnNonExistentStop when a stop is missing |
| TransfersRules.InsertRuleMap | transfers/src/rules.rs:197-266 | the map changes at the rule's pair if and only if the rule is accepted |
| TransfersRules.AcceptedResolves | transfers/src/rules.rs:204-208 | an accepted rule names two stop points of the dataset |
| TransfersRules.InsertAllAccepting | transfers/src/rules.rs:285-287 | checking and inserting the expanded rules leaves the map the accepted rules write, in order |
| TransfersRules.LastAcceptedWins | transfers/src/rules.rs:208-224 | for each pair, the last accepted rule is the one kept |
| TransfersRules.AcceptedKeySnoc | transfers/src/rules.rs:285-287 | a pair is named by an accepted rule of a sequence if and only if by one before the last or by the last |
| TransfersRules.AcceptingDomain | transfers/src/rules.rs:285-287 | the pairs afterwards are those before and those of the accepted rules |
| TransfersRules.AcceptingUntouched | transfers/src/rules.rs:285-287 | a pair no accepted rule names keeps its rule |
| TransfersRules.AcceptingKeyed | transfers/src/rules.rs:285-287 | every rule kept sits under its own pair and names stop points of the dataset |
| TransfersRules.ReadRulesFails | transfers/src/rules.rs:277-284 | reading fails if and only if some row does not deserialize, with the error of the first such row |
| TransfersRules.ReadRulesKeyed | transfers/src/rules.rs:268-291 | the rules read sit under their own pair and name stop points of the dataset |
| TransfersRules.ReadRulesStopped | transfers/src/rules.rs:283 | once reading has failed, later rows change nothing |
| TransfersRules.ReadFilesStopped | transfers/src/rules.rs:277-284 | once reading has failed in a file, later files change nothing |
| TransfersRules.RuleSeqDistinct | transfers/src/rules.rs:290 | the rules returned name no pair twice, each being the map's rule for its pair |
| TransfersRules.RuleSeqKeys | transfers/src/rules.rs:290 | the rules returned name exactly the map's pairs |
| TransfersRules.TimedSpec | transfers/src/rules.rs:323-345 | the transfer a rule makes has the rule's transfer time and, as real time, that plus the rule's waiting time or the default one; an existing transfer keeps its equipment, a new one has none |
| TransfersRules.AddMissingAt | transfers/src/rules.rs:316-347 | with distinct pairs, each rule with a transfer time sets its pair's transfer, whatever the order of the rules |
| TransfersRules.AddMissingElsewhere | transfers/src/rules.rs:316-347 | a pair no timed rule names keeps its transfer, or its absence |
| TransfersRules.AddMissingKeyed | transfers/src/rules.rs:316-347 | adding keeps every transfer under its own pair |
| TransfersRules.AddMissingTransfers | transfers/src/rules.rs:316-347 | the loop of `add_missing_transfers` computes `AddMissing` |
| TransfersRules.RuleKeys | transfers/src/rules.rs:298-306 | the pairs the rules name, exactly |
| TransfersRules.UpdatedAt | transfers/src/rules.rs:122-125 | after non-empty rules, a rule's pair has a transfer if and only if the rule has a transfer time, and then it is a new transfer with the rule's times (removal runs before addition) |
| TransfersRules.UpdatedElsewhere | transfers/src/rules.rs:122-125 | a pair no rule names keeps its transfer, or its absence |
| TransfersRules.OutputKeyed | transfers/src/rules.rs:118-125 | every output transfer sits under its own pair |
| TransfersRules.ApplyRulesSorted | transfers/src/rules.rs:111-139 | a successful run outputs the transfers sorted strictly by pair, and every rule read names stop points of the dataset |
| TransfersRules.OutputRule | transfers/src/rules.rs:118-125 | the pair of a rule read has an output transfer if and only if the rule has a transfer time |
| TransfersRules.ApplyRulesRule | transfers/src/rules.rs:111-139 | after a successful run, a rule's pair is in the output if and only if the rule has a transfer time, and then with the rule's times and no equipment |
| TransfersRules.ApplyRulesUntouched | transfers/src/rules.rs:111-139 | a transfer whose pair no rule names is output unchanged, unless a later one has the same pair |
| TransfersRules.GetStopPointIds | transfers/src/rules.rs:58-84 | `get_stop_point_ids` computes `StopPointIds` and files its warning |
| TransfersRules.Expand | transfers/src/rules.rs:57-108 | `expand` computes `Expanded` and files its warnings |
| TransfersRules.CheckAndInsertRule | transfers/src/rules.rs:197-266 | `check_and_insert_rule` computes `InsertRule` and files its warnings |
| TransfersRules.InsertRules | transfers/src/rules.rs:285-287 | the inner loop computes `InsertAll` |
| TransfersRules.ReadOneRow | transfers/src/rules.rs:282-288 | one row read computes `RowStep` |
| TransfersRules.ReadRuleFile | transfers/src/rules.rs:278-288 | the rows of one file read agree with `ReadRules` |
| TransfersRules.ReadAllRules | transfers/src/rules.rs:268-291 | `read_rules` computes `ReadRules` over the rows of all files and files its warnings |
| TransfersRules.ApplyRules | transfers/src/rules.rs:111-139 | when every existing transfer names known stop points, `apply_rules` computes `ApplyRulesSpec` with a fresh report |
| TartareTransfers.NeedTransferSpec | src/transfers/rules.rs:114-157 | in mode All every pair needs a transfer; otherwise a pair needs one only if both stops have contributors, and then if and only if the contributor sets are equal (IntraContributor) or differ (InterContributor); a stop without contributors is reported as OnUnreferencedStop |
| TartareTransfers.NeedTransferModesComplement | src/transfers/rules.rs:152-156 | between stops with contributors, exactly one of the two contributor modes needs a transfer |
| TartareTransfers.FilteredMapKeys | src/transfers/rules.rs:86-112 | a pair is kept if and only if some transfer of the dataset for it needs one in the mode |
| TartareTransfers.FilteredMapValues | src/transfers/rules.rs:86-112 | what is kept for a pair is a transfer of the dataset whose pair needs one |
| TartareTransfers.FilteredMapLastWins | src/transfers/rules.rs:86-112 | for each pair the last needed transfer is the one kept |
| TartareTransfers.InsertRuleAccepted | src/transfers/rules.rs:178-191 | an accepted rule is inserted when its pair is new; otherwise the map stays and one AlreadyDeclared warning is filed: the first rule wins |
| TartareTransfers.InsertRuleDropped | src/transfers/rules.rs:192-234 | any other rule leaves the map alone and is reported with the category of the mode it falls outside (IntraIgnored, InterIgnored, AllIgnored) when no transfer is needed, OnNonExistentStop when a stop is missing |
| TartareTransfers.InsertRuleMap | src/transfers/rules.rs:174-234 | the map gains the rule if and only if it is accepted and its pair is new |
| TartareTransfers.AcceptedKeySnoc | src/transfers/rules.rs:172-235 | a pair is named by an accepted rule of a sequence if and only if by one before the last or by the last |
| TartareTransfers.AcceptingDomain | src/transfers/rules.rs:172-235 | the pairs afterwards are those before and those of the accepted rules |
| TartareTransfers.AcceptingKeeps | src/transfers/rules.rs:180-187 | a rule already in the map is never replaced |
| TartareTransfers.FirstAcceptedWins | src/transfers/rules.rs:180-190 | for a new pair, the first accepted rule is the one kept |
| TartareTransfers.AcceptingKeyed | src/transfers/rules.rs:172-235 | every rule kept sits under its own pair and names stop points of the dataset |
| TartareTransfers.ReadRulesFails | src/transfers/rules.rs:167-173 | reading fails if and only if some row does not deserialize |
| TartareTransfers.ReadRulesFirstError | src/transfers/rules.rs:167-173 | a failed reading carries the error of the first row that does not deserialize |
| TartareTransfers.RulesOf | src/transfers/rules.rs:172-173 | the rules of the rows, one per row, in order |
| TartareTransfers.ReadRulesAccepting | src/transfers/rules.rs:159-238 | when every row deserializes, the rules read are those the rows' rules leave from an empty map |
| TartareTransfers.ReadRulesKeyed | src/transfers/rules.rs:159-238 | the rules read sit under their own pair and name stop points of the dataset |
| TartareTransfers.ReadRulesStopped | src/transfers/rules.rs:173 | once reading has failed, later rows change nothing |
| TartareTransfers.ReadFilesStopped | src/transfers/rules.rs:167-173 | once reading has failed in a file, later files change nothing |
| TartareTransfers.RuleKeys | src/transfers/rules.rs:245-253 | the pairs the rules name, exactly |
| TartareTransfers.RuleSeqDistinct | src/transfers/rules.rs:237 | the rules returned name no pair twice, each being the map's rule for its pair |
| TartareTransfers.RuleSeqKeys | src/transfers/rules.rs:237 | the rules returned name exactly the map's pairs |
| TartareTransfers.TimedSpec | src/transfers/rules.rs:270-286 | an existing transfer gets the rule's transfer time as both its times and keeps its equipment; a new one's real time adds the default waiting time and it has no equipment |
| TartareTransfers.AddMissingAt | src/transfers/rules.rs:263-288 | with distinct pairs, each rule with a transfer time sets its pair's transfer, whatever the order of the rules |
| TartareTransfers.AddMissingElsewhere | src/transfers/rules.rs:263-288 | a pair no timed rule names keeps its transfer, or its absence |
| TartareTransfers.AddMissingKeyed | src/transfers/rules.rs:263-288 | adding keeps every transfer under its own pair |
| TartareTransfers.AddMissingTransfers | src/transfers/rules.rs:263-288 | the loop of `add_missing_transfers` computes `AddMissing` |
| TartareTransfers.UpdatedAt | src/transfers/rules.rs:66-69 | after non-empty rules, a rule's pair has a transfer if and only if the rule has a transfer time, and then it is a new transfer (removal runs before addition) |
| TartareTransfers.UpdatedElsewhere | src/transfers/rules.rs:66-69 | a pair no rule names keeps its transfer, or its absence |
| TartareTransfers.OutputKeyed | src/transfers/rules.rs:64-69 | every output transfer sits under its own pair |
| TartareTransfers.ApplyRulesSorted | src/transfers/rules.rs:57-84 | a successful run outputs the transfers sorted strictly by pair, and every rule read names stop points of the dataset |
| TartareTransfers.OutputRule | src/transfers/rules.rs:64-69 | the pair of a rule read has an output transfer if and only if the rule has a transfer time |
| TartareTransfers.ApplyRulesRule | src/transfers/rules.rs:57-84 | after a successful run, a rule's pair is in the output if and only if the rule has a transfer time, and then as a new transfer with the default waiting time added |
| TartareTransfers.ApplyRulesKeepsNeeded | src/transfers/rules.rs:57-84 | the last needed transfer of a pair no rule names is output unchanged |
| TartareTransfers.OutputOrigin | src/transfers/rules.rs:64-69 | every transfer of the updated map is a rule's new transfer or a needed transfer of the dataset |
| TartareTransfers.ApplyRulesOrigin | src/transfers/rules.rs:57-84 | every transfer output is a rule's new transfer or a needed transfer of the dataset that no rule names |
| TartareTransfers.NeedTransferReported | src/transfers/rules.rs:114-157 | `stop_points_need_transfer` given the report computes `NeedTransfer` and files its warnings |
| TartareTransfers.CheckResolved | src/transfers/rules.rs:178-210 | a rule whose stops resolve is inserted or reported as `InsertResolved` says |
| TartareTransfers.CheckAndInsertRule | src/transfers/rules.rs:174-234 | the body of the reading loop for one rule computes `InsertRule` and files its warnings |
| TartareTransfers.ReadRuleFile | src/transfers/rules.rs:168-235 | the rows of one file read agree with `ReadRules` |
| TartareTransfers.ReadNextFile | src/transfers/rules.rs:167-236 | one more file read; on failure the later files change nothing |
| TartareTransfers.ReadAllRules | src/transfers/rules.rs:159-238 | `read_rules` computes `ReadRules` over the rows of all files and files its warnings |
| TartareTransfers.ApplyRules | src/transfers/rules.rs:57-84 | `apply_rules` computes `ApplyRulesSpec` with a fresh report |
| PivRead.SetValidityPeriod | piv2ntfs/src/piv/read.rs:370-373 | the widened period covers the date and the old period, and each bound is the date or the old bound |
| PivRead.WidenedSpan | piv2ntfs/src/piv/read.rs:370-373 | from the empty period, widening by representable dates gives exactly their earliest and latest date |
| PivRead.DateIdParts | piv2ntfs/src/piv/read.rs:361 | for years 0 to 9999 the service id is eight digits that read back as the year, month and day |
| PivRead.DateIdInjective | piv2ntfs/src/piv/read.rs:361 | for years 0 to 9999 two dates with the same service id are equal |
| PivRead.PhysicalModeIgnoresCase | piv2ntfs/src/piv/read.rs:173-235 | the physical mode is chosen on the lower-cased mode, sub-mode and mode type |
| PivRead.PhysicalModeFallback | piv2ntfs/src/piv/read.rs:220-234 | a mode other than bus, coach, rail or tram, or a mode type other than road or rail, falls back to the long-distance train |
| PivRead.PhysicalModeIdDeterminesName | piv2ntfs/src/piv/read.rs:173-235 | a physical mode's id determines its name, so getting or creating one by id never meets another name |
| PivRead.InsertByRangSpec | piv2ntfs/src/piv/read.rs:141-157 | inserting into the set ordered by rank keeps ranks strictly ascending and adds the stop only when its rank is new |
| PivRead.ArretsSpec | piv2ntfs/src/piv/read.rs:141-157 | the stops of a vehicle are in strictly ascending rank, every rank listed is kept, and the stop kept for a rank is the first listed with it |
| PivRead.GetOrCreate | piv2ntfs/src/piv/read.rs:342-355 | the record is pushed when its id is absent and the handle returned carries that id; a present id leaves the collection alone and returns its handle |
| PivRead.GetOrCreateUnique | piv2ntfs/src/piv/read.rs:342-355 | getting or creating keeps ids distinct and is idempotent |
| PivRead.GetOrCreateLine | piv2ntfs/src/piv/read.rs:327-340 | the line, attached to the network and commercial mode, is pushed unless its id is present, and its id is returned either way |
| PivRead.GetOrCreateService | piv2ntfs/src/piv/read.rs:357-368 | the service of a date is the calendar whose id is the date as `%Y%m%d`, created with that one date when absent |
| PivRead.GetOrCreateStopSpec | piv2ntfs/src/piv/read.rs:375-402 | the stop point returned has id `"{code}:{mode}"` and belongs to the place's stop area, which exists; records keep their positions and ids; only stop areas and stop points change; a label names the stop point only while its name is empty |
| PivRead.TimeSinceBase | piv2ntfs/src/piv/read.rs:421-435 | a timestamp converts to its offset in seconds, and an offset below zero or from 2^32 up is an error |
| PivRead.StopTimeRules | piv2ntfs/src/piv/read.rs:437-454 | a stop without times is skipped; a missing time is taken from the other one; a stop without arrival gets drop-off 1 and one without departure pickup 1; any conversion error fails |
| PivRead.FilledKeeps | piv2ntfs/src/piv/read.rs:437-474 | filling the stop times changes only stop areas and stop points, keeping their positions and ids |
| PivRead.FilledStopTimes | piv2ntfs/src/piv/read.rs:437-474 | each stop time points at the stop point `"{code}:{mode}"` of its stop's place and its sequence is the stop's rank, in the order of the stops |
| PivRead.FilledSequences | piv2ntfs/src/piv/read.rs:437-474 | the stop times' sequences strictly increase |
| PivRead.FilledStopped | piv2ntfs/src/piv/read.rs:438-439 | once a conversion has failed, later stops change nothing |
| PivRead.FillStopTimes | piv2ntfs/src/piv/read.rs:404-476 | without a first departure the journey fails with the circulation-date error; otherwise the loop appends `Filled`'s stop times and fails with its first error |
| PivRead.CompletedOutcome | piv2ntfs/src/piv/read.rs:534-543 | the journey, with its stop times, is appended and the period widened if and only if the stop times convert and the journey id is new; otherwise journeys and period stay |
| PivRead.WithReferencesSpec | piv2ntfs/src/piv/read.rs:505-525 | once got or created, the calendar of the date and the route of the line exist, and the journeys are untouched |
| PivRead.ManagedOutcome | piv2ntfs/src/piv/read.rs:478-544 | a vehicle is read if and only if its first stop departs, its times convert and its journey id is new; then exactly its journey is appended and the period widened by its date; a failure leaves the journeys and the period as they were |
| PivRead.ManagedExtends | piv2ntfs/src/piv/read.rs:478-544 | managing a vehicle only ever appends to the journeys |
| PivRead.JourneyOfSpec | piv2ntfs/src/piv/read.rs:488-538 | the journey's id is `"{date}:{numero}:{company}:{mode}"`, its route the line's, its service the calendar of its date, its only code the source's circulation code |
| PivRead.ManageVehicle | piv2ntfs/src/piv/read.rs:478-544 | `manage_vehicle_content` computes `ManagedSpec` |
| PivRead.CompleteVehicle | piv2ntfs/src/piv/read.rs:534-543 | the end of `manage_vehicle_content` computes `Completed` |
| PivRead.OnlyPta | piv2ntfs/src/piv/read.rs:578-591 | entries that do not deserialize or are not PTA change nothing |
| PivRead.EntriesKeepJourneys | piv2ntfs/src/piv/read.rs:577-591 | reading entries never removes or reorders journeys |
| PivRead.ReadEntries | piv2ntfs/src/piv/read.rs:577-591 | the loop over one file's entries computes `EntriesRead` |
| PivRead.ReadDailyPlan | piv2ntfs/src/piv/read.rs:557-592 | the loop over the files of a plan computes `PlanRead`, from the empty period |
| PivRead.PlanReadStopped | piv2ntfs/src/piv/read.rs:570-576 | once a file cannot be read, later files change nothing |
| PivImport.InitDatasetValidityPeriod | piv2ntfs/src/piv/mod.rs:66-69 | the period is reset to start at the last representable date and end at the first |
| PivImport.InitThenWiden | piv2ntfs/src/piv/mod.rs:66-75 | after the reset, the first date widens the period to exactly that date |
| PivImport.AreaPoints | piv2ntfs/src/piv/mod.rs:20-24 | the stop points of an area, and only those, in collection order |
| PivImport.TransferTimes | piv2ntfs/src/piv/mod.rs:25-45 | a transfer from a stop point to itself takes 0 and 120 seconds; one between two different stop points 300 and 420; none has equipment |
| PivImport.PairTransfersAt | piv2ntfs/src/piv/mod.rs:27-47 | there are `n * m` transfers and the one at `i * m + j` goes from the `i`-th to the `j`-th stop point |
| PivImport.AreaPairCount | piv2ntfs/src/piv/mod.rs:27-47 | an area with `n` stop points yields `n * n` transfers |
| PivImport.PairTransfersOrigin | piv2ntfs/src/piv/mod.rs:27-47 | every transfer of a pair loop joins one of `froms` to one of `tos` |
| PivImport.AreaTransfersOrigin | piv2ntfs/src/piv/mod.rs:17-50 | every generated transfer joins two stop points of the same known stop area |
| PivImport.AreaTransfersCount | piv2ntfs/src/piv/mod.rs:17-50 | the number of transfers is the sum over the areas of the square of their number of stop points |
| PivImport.SelfTransferIffSameStop | piv2ntfs/src/piv/mod.rs:29-37 | among stop points with distinct ids, a transfer has no transfer time if and only if it goes from a stop point to itself |
| PivImport.GenerateTransfers | piv2ntfs/src/piv/mod.rs:17-50 | `generate_transfers` appends `AreaTransfers` and always succeeds |
| PivImport.PushAreaTransfers | piv2ntfs/src/piv/mod.rs:27-47 | the two nested loops of one area append `PairTransfers` |
| PivImport.TwoPointsExample | piv2ntfs/src/piv/mod.rs:114-146 | an area with two stop points gets four transfers, the first two being SP1 to SP1 with 0 and 120 seconds and SP1 to SP2 with 300 and 420 |
| Kv1Read.FirstColonAfter | kv12ntfs/src/kv1/read.rs:130-132 | the first `:` after a part without `:` is the separator |
| Kv1Read.SplitAtColon | kv12ntfs/src/kv1/read.rs:130-132 | two ids `a:s` and `b:t` with `a` and `b` free of `:` are equal only when `a == b` and `s == t` |
| Kv1Read.JoinedInjective | kv12ntfs/src/kv1/read.rs:106-132 | ids joined with `:` from the same number of parts, all but the last free of `:`, are equal only when their parts are |
| Kv1Read.ServiceIdInjective | kv12ntfs/src/kv1/read.rs:217-220 | service ids `"{org}:{schedule}:{type}"` determine their parts when the first two hold no `:` |
| Kv1Read.VehicleJourneyIdInjective | kv12ntfs/src/kv1/read.rs:106-114 | journey ids determine their four parts when the first three hold no `:` |
| Kv1Read.RouteIdInjective | kv12ntfs/src/kv1/read.rs:130-132 | route ids determine line and direction when the line holds no `:` |
| Kv1Read.RouteIdCollision | kv12ntfs/src/kv1/read.rs:130-132 | a line number holding `:` lets two journey patterns share a route id, which is how the route push can fail |
| Kv1Read.AddDateSpec | kv12ntfs/src/kv1/read.rs:216-243 | a row adds its service id, keeps ids distinct, and adds its date to its own calendar and to no other |
| Kv1Read.OperdaysStopped | kv12ntfs/src/kv1/read.rs:213-214 | once a row has failed to deserialize, later rows change nothing |
| Kv1Read.ReadOperday | kv12ntfs/src/kv1/read.rs:199-245 | the loop of `read_operday` computes `OperdaysRead` |
| Kv1Read.OperdaysFail | kv12ntfs/src/kv1/read.rs:213-214 | reading fails if and only if some row does not deserialize, and the error names the file |
| Kv1Read.OperdaysCalendars | kv12ntfs/src/kv1/read.rs:199-245 | one calendar per service id; when reading succeeds, the ids are those before plus those of the rows, and each service's dates are its dates before plus those of its rows |
| Kv1Read.LineModesSpec | kv12ntfs/src/kv1/read.rs:253-260 | collecting the modes succeeds if and only if every line's transport type is in the table, and then holds their modes; otherwise it fails naming the first unknown type |
| Kv1Read.ModeIsFresh | kv12ntfs/src/kv1/read.rs:262-278 | each mode pushed is not present yet, so the pushes never fail |
| Kv1Read.MakePhysicalAndCommercialModes | kv12ntfs/src/kv1/read.rs:248-282 | an unknown transport type fails and adds nothing; otherwise one physical and one commercial mode per distinct mode is added, in ascending order |
| Kv1Read.ModesExample | kv12ntfs/src/kv1/read.rs:885-932 | two bus lines and a boat line give the modes Bus and Ferry, in that order |
| Kv1Read.UnknownModeExample | kv12ntfs/src/kv1/read.rs:933-955 | an unknown transport type is refused with `transport_type=UNKNOWN is not a valid mode` |
| Kv1Read.AvailabilitySpec | kv12ntfs/src/kv1/read.rs:481-493 | a journey is available if and only if all its passes are accessible, not available if and only if all are not accessible, and otherwise the information is not available |
| Kv1Read.DistinctSpec | kv12ntfs/src/kv1/read.rs:494-502 | the availabilities are numbered once each, in order of first appearance |
| Kv1Read.DistinctPrefix | kv12ntfs/src/kv1/read.rs:494-502 | numbers given after part of the journeys stay the same after all |
| Kv1Read.DistinctAtMostThree | kv12ntfs/src/kv1/read.rs:478-502 | there are at most three trip properties, so the 8-bit counter cannot wrap |
| Kv1Read.TripPropertiesSorted | kv12ntfs/src/kv1/read.rs:508-510 | sorting the trip properties by id as strings keeps the numbering order, and their ids are distinct |
| Kv1Read.WithTripProperties | kv12ntfs/src/kv1/read.rs:504-505 | numbering changes no journey's id or position |
| Kv1Read.NumberingStable | kv12ntfs/src/kv1/read.rs:494-502 | the number an availability receives when first met is the one it keeps |
| Kv1Read.EntryOrInsert | kv12ntfs/src/kv1/read.rs:494-502 | the entry gives an availability's number, numbering it next when it is new |
| Kv1Read.NumberJourney | kv12ntfs/src/kv1/read.rs:480-506 | one turn of the loop numbers the next journey in id order |
| Kv1Read.MakeTripProperties | kv12ntfs/src/kv1/read.rs:473-513 | each journey, in ascending id order, takes the trip property of its availability, created with the next number the first time that availability is met |
| Kv1Read.TripPropertiesDistinct | kv12ntfs/src/kv1/read.rs:494-510 | one trip property per availability that occurs, with distinct ids |
| Kv1Read.TripPropertiesCover | kv12ntfs/src/kv1/read.rs:494-505 | every journey gets the id of a trip property carrying its availability |
| Kv1Read.TripPropertiesUsed | kv12ntfs/src/kv1/read.rs:494-502 | every trip property carries the availability of some journey |
| Kv1Read.RouteOf | kv12ntfs/src/kv1/read.rs:668-695 | a route's id is `"{line}:{direction}"`, its direction forward if and only if the direction is `1` or `A`, backward otherwise, and its name is left empty |
| Kv1Read.NewRoutesSpec | kv12ntfs/src/kv1/read.rs:667-678 | a route is made for a line and direction exactly when some journey runs on it |
| Kv1Read.MakeRoutes | kv12ntfs/src/kv1/read.rs:656-700 | the routes of the journey patterns' keys, in ascending order, are pushed until one push fails |
| Kv1Read.MakeRoutesAdded | kv12ntfs/src/kv1/read.rs:656-700 | a route is made exactly for each line and direction of a journey pattern that some journey runs on |
| Kv1Read.RouteByDirectionNone | kv12ntfs/src/kv1/read.rs:702-708 | no route is chosen exactly when no route has the direction |
| Kv1Read.RouteByDirectionLeast | kv12ntfs/src/kv1/read.rs:702-708 | the route chosen is the earliest with the least id among those with the direction |
| Kv1Read.ReadNtcassgn | kv12ntfs/src/kv1/read.rs:822-862 | reading fails if and only if a row does not deserialize; otherwise each journey gains exactly the comments some row attaches to it through a first pass of its trip |
| Naptan.AreasReadSpec | transxchange2ntfs/src/transxchange/naptan.rs:53-89 | reading the stop areas succeeds exactly when every record parses and the areas whose position converts have distinct codes, and then gives those areas in file order |
| Naptan.AreasReadStopped | transxchange2ntfs/src/transxchange/naptan.rs:67-79 | once a record has failed, the rest of the file is not read |
| Naptan.ReadStopAreas | transxchange2ntfs/src/transxchange/naptan.rs:53-89 | the loop of `read_stop_areas` computes `AreasRead` |
| Naptan.StopsInArea | transxchange2ntfs/src/transxchange/naptan.rs:91-130 | reading the stops in area succeeds if and only if every record parses, and fails with the parse error otherwise |
| Naptan.InAreaMapSpec | transxchange2ntfs/src/transxchange/naptan.rs:91-130 | the map has a key for each stop of a record naming a known area, mapped to the area of the last such record, an area that exists |
| Naptan.LinkedPointSpec | transxchange2ntfs/src/transxchange/naptan.rs:147-183 | a stop point keeps the record's id, name and indicator; it has the NaptanCode code exactly when the record's code is non-empty; a listed stop takes the mapped area and any other the area `Navitia:<id>` made from it |
| Naptan.StopsReadSpec | transxchange2ntfs/src/transxchange/naptan.rs:134-187 | reading the stops succeeds exactly when every record parses and neither the points nor the generated areas repeat an id, and then gives the points and the generated areas in file order |
| Naptan.StopsReadStopped | transxchange2ntfs/src/transxchange/naptan.rs:147-185 | once a record has failed, the rest of the file is not read |
| Naptan.PointsAttached | transxchange2ntfs/src/transxchange/naptan.rs:163-183 | every point read is attached to a mapped area or to a generated one |
| Naptan.ReadStops | transxchange2ntfs/src/transxchange/naptan.rs:134-187 | the loop of `read_stops` computes `StopsReadOf` |
| Naptan.Read | transxchange2ntfs/src/transxchange/naptan.rs:193-213 | `read` computes `Loaded`: the three files in turn, then the merges |
| Naptan.MergedSpec | transxchange2ntfs/src/transxchange/naptan.rs:209-211 | the merges succeed exactly when no id repeats once everything is appended, and then append the file areas, the points and the generated areas |
| Naptan.LoadedSpec | transxchange2ntfs/src/transxchange/naptan.rs:193-213 | reading succeeds exactly when every record of the three files parses and no id repeats once merged; the collections then gain the file areas, the generated areas and the points |
| Naptan.LoadedAttached | transxchange2ntfs/src/transxchange/naptan.rs:193-213 | every stop point read is attached to a stop area present afterwards |
| Naptan.StopsReadExample | transxchange2ntfs/src/transxchange/naptan.rs:326-351 | of the test's two stops, both are read with their names and NaptanCode codes; the listed one keeps "stop-area-1", the other gets "Navitia:0100053264", the one generated area, named "Alberton Road" |
| OsmPoi.FirstMatch | osm-utils/src/poi.rs:63-69 | the position found is that of a rule whose every filter finds its key among the tags with exactly its value, and no earlier rule does; nothing is found exactly when no rule matches |
| OsmPoi.IsPoi | osm-utils/src/poi.rs:56-58 | the tags are a POI exactly when they have a type, which needs some matching rule |
| OsmPoi.GetPoiId | osm-utils/src/poi.rs:59-61 | there is an id exactly when the tags are a POI; it is the id of an existing type, the one the first matching rule names |
| OsmPoi.ValidPoiType | osm-utils/src/poi.rs:62-75 | for a configuration that passes the check, the tags have a type exactly when some rule matches, and the type is the one among the types that the first matching rule names |
| OsmPoi.RepeatedTypeSpec | osm-utils/src/poi.rs:79-83 | the first loop of `check` finds a repeated id exactly when the type ids are not distinct, and the one it reports repeats an earlier type's |
| OsmPoi.UnknownTypeSpec | osm-utils/src/poi.rs:85-91 | the second loop finds an unknown type exactly when some rule names an id that is not a type's, and reports such an id |
| OsmPoi.MissingRuleSpec | osm-utils/src/poi.rs:93-97 | the third loop finds a type without rule exactly when some type's id is named by no rule, and reports such a type |
| OsmPoi.CheckedSpec | osm-utils/src/poi.rs:76-99 | `check` accepts exactly the configurations with distinct type ids, a type for every rule and a rule for every type |
| OsmPoi.CheckedErrors | osm-utils/src/poi.rs:79-97 | each error message of `check` names an id at fault: a repeated type id, a rule's missing type or a type without rule |
| OsmPoi.CheckedExamples | osm-utils/src/poi.rs:76-99 | an empty configuration passes; a single type without rule fails with the missing-rule message |
| OsmPoi.SharedTypeAccepted | osm-utils/src/poi.rs:273-291 | two rules may name the same type |
| OsmPoi.RepeatedTypeStopped | osm-utils/src/poi.rs:79-83 | once a repeated id is found, the types after it change nothing |
| OsmPoi.UnknownTypeStopped | osm-utils/src/poi.rs:85-91 | once an unknown type is found, the rules after it change nothing |
| OsmPoi.MissingRuleStopped | osm-utils/src/poi.rs:93-97 | once a type without rule is found, the types after it change nothing |
| OsmPoi.CheckTypes | osm-utils/src/poi.rs:78-83 | the first loop computes `RepeatedType`, and when none repeats its set holds every type id |
| OsmPoi.CheckRules | osm-utils/src/poi.rs:84-91 | the second loop computes `UnknownType`, and when all are known its set holds every type the rules name |
| OsmPoi.CheckRuled | osm-utils/src/poi.rs:93-97 | the third loop computes `MissingRule` |
| OsmPoi.Check | osm-utils/src/poi.rs:76-99 | `check` computes `Checked` |
| OsmPoi.MakeProperties | osm-utils/src/poi.rs:102-110 | one property per tag, each carrying its tag's value, every tag present, in ascending key order |
| OsmPoi.PropertiesInKeyOrder | osm-utils/src/poi.rs:102-110 | the properties built over the sorted keys hold every tag once, in ascending key order |
| OsmPoi.FormatPoiIdInjective | osm-utils/src/poi.rs:156-158 | `osm:<kind>:<number>` ids of two objects coincide only for the same kind and number, the kinds having no ':' |
| OsmPoi.FirstRuleWins | osm-utils/src/poi.rs:325-395 | tags satisfying a two-filter rule and a later one-filter rule get the first rule's type; with one filter failing they get the later rule's |
| SytralPoi.GetPoiIdWithoutCollision | src/poi/sytral.rs:123-140 | a missing id fails naming the file; an id already seen in the file fails naming the id and the file; a new id is returned and recorded; a failure leaves the ids unchanged |
| SytralPoi.PoiOfSpec | src/poi/sytral.rs:104-121 | the POI id is `TCL:<type code>:<id>`, and the POI is hidden exactly when its type code is GAB, DEP or BET |
| SytralPoi.ParkAndRideParts | src/poi/sytral.rs:212-256 | a park-and-ride POI's properties are capacity, disabled capacity, opening and supervision when present, in that order, then operator SYTRAL, network TCL and its own id as reference |
| SytralPoi.ParkAndRideTail | src/poi/sytral.rs:245-256 | a park-and-ride POI's last three properties are operator SYTRAL, network TCL and its own id |
| SytralPoi.ParkAndRideDisabled | src/poi/sytral.rs:219-228 | the disabled-capacity property says "no" exactly when there is no such place |
| SytralPoi.ParkAndRideSupervised | src/poi/sytral.rs:235-243 | the supervision property says "yes" exactly for the raw value "O" |
| SytralPoi.StepSpec | src/poi/sytral.rs:153-195 | one record is accepted exactly when it deserialises with a type code and a label and its id is new to the file; its POI is then appended and its id recorded |
| SytralPoi.FileReadSpec | src/poi/sytral.rs:142-316 | a file reads without error exactly when every record can be read and no two share an id; the POIs of its records are then appended in file order |
| SytralPoi.FileReadTypes | src/poi/sytral.rs:181-185 | reading a file keeps every known POI type unchanged, and a new type takes the label of the first record of the file that names it |
| SytralPoi.StepTypes | src/poi/sytral.rs:181-185 | one record keeps the known types and adds at most its own, with its label |
| SytralPoi.TypeNamedKnown | src/poi/sytral.rs:181-185 | after a file is read, the type of each of its records is known |
| SytralPoi.FileReadStopped | src/poi/sytral.rs:153-155 | once a record has failed, the rest of the file is not read |
| SytralPoi.ExtractFile | src/poi/sytral.rs:142-316 | the loop of each of the three file readers computes `FileRead`, with a fresh set of ids per file |
| SytralPoi.ExtractPois | src/poi/sytral.rs:318-334 | `extract_pois` computes `Extracted` |
| SytralPoi.ExtractedSpec | src/poi/sytral.rs:318-334 | extraction succeeds exactly when the three files exist and each is readable on its own, so one id may appear in several files; the POIs are those of the main file, the park-and-rides and the bicycle parks, in order |
| SytralPoi.MissingFileFirst | src/poi/sytral.rs:322-326 | a missing file is reported before any record is read, the first missing in the order main, park-and-ride, bicycle parks |
| SytralPoi.EmptyTypeRejected | src/poi/sytral.rs:46-57 | an empty type code fails the file with the read error that names its path |
| SytralPoi.RepeatedIdRejected | src/poi/sytral.rs:132-138 | two records of one file with the same id fail, naming the id and the file |
| PoiMerge.TypeStepSpec | src/poi/merge.rs:56-65 | an accepted type keeps every known type and adds at most its own id |
| PoiMerge.TypesMergedValue | src/poi/merge.rs:44-69 | after the types merge, every record deserialised, the known types are kept and each record's id holds that record's type |
| PoiMerge.TypesMergedOk | src/poi/merge.rs:44-69 | merging types succeeds exactly when every record deserialises and each id has a single label among the known types and the records |
| PoiMerge.TypesMergedSpec | src/poi/merge.rs:44-69 | both of the above: success exactly when the labels agree, and then the known types kept and each new id inserted with its record's label |
| PoiMerge.LabelConflict | src/poi/merge.rs:57-60 | a type met again with another label fails, quoting the id and both labels |
| PoiMerge.TypesMergedStopped | src/poi/merge.rs:50-51 | once a type record has failed, the rest of the file is not read |
| PoiMerge.MergePoiTypes | src/poi/merge.rs:44-69 | the loop of `merge_poi_types` computes `TypesMerged` |
| PoiMerge.PoisMergedSpec | src/poi/merge.rs:94-116 | merging POIs succeeds exactly when every record deserialises and its id is neither known nor repeated; the known POIs are then kept and each record is inserted under its id with no property |
| PoiMerge.PoisMergedStopped | src/poi/merge.rs:100-101 | once a POI record has failed, the rest of the file is not read |
| PoiMerge.MergePois | src/poi/merge.rs:94-116 | the loop of `merge_pois` computes `PoisMerged` |
| PoiMerge.PropsAddedSpec | src/poi/merge.rs:71-92 | adding properties fails only on a record that does not deserialise; otherwise the same POIs remain, each keeping its fields and its properties followed by the new properties addressed to it, each once |
| PoiMerge.PropsAddedStopped | src/poi/merge.rs:77-78 | once a property record has failed, the rest of the file is not read |
| PoiMerge.AddProps | src/poi/merge.rs:71-92 | the loop of `add_props` computes `PropsAdded` |
| PoiMerge.MergedStopped | src/poi/merge.rs:122-128 | once an archive has failed, the later archives are not read |
| PoiMerge.MergeArchive | src/poi/merge.rs:125-127 | one turn of `merge`'s loop computes `ArchiveMerged`: types, then POIs, then properties |
| PoiMerge.MergeArchives | src/poi/merge.rs:118-133 | `merge` computes `Merged` over the archives in order |
| PoiMerge.ArchiveMergedSpec | src/poi/merge.rs:122-128 | one archive succeeds exactly when its three files are present, its types agree with the known ones, its POIs are all new and its properties all deserialise; the POI ids then gain the archive's |
| PoiMerge.AllPoiIdsHas | src/poi/merge.rs:118-133 | every archive's POI ids are among those of all the archives |
| PoiMerge.MergedKeys | src/poi/merge.rs:118-133 | after a successful merge the POI ids are exactly those of all the archives, and every type is stored under its id |
| PoiMerge.MergedPoiIdsDisjoint | src/poi/merge.rs:109-112 | after a successful merge no POI id appears in two archives |
| PoiMerge.RepeatedAcrossArchives | src/poi/merge.rs:109-112 | a POI id present in two archives makes the merge fail |
| PoiMerge.OwnPropertiesAttached | src/poi/merge.rs:125-127 | a property addressed to one of the archive's own POIs is attached to it, as properties are read after the POIs |
| ImproveStopPositions.AlmostEqualSpec | src/improve_stop_positions.rs:42-48 | whatever the transliteration, the comparison is reflexive, symmetric and transitive, and holds between strings that transliterate alike |
| ImproveStopPositions.AlmostEqualExample | src/improve_stop_positions.rs:42-48 | with the identity as transliteration, "Gare" and "GARE" compare equal and "Gare" and "Gares" do not |
| ImproveStopPositions.CheckNetworks | src/improve_stop_positions.rs:56-63 | the precheck passes exactly when every network of the mapping exists, and otherwise names a mapped network that does not |
| ImproveStopPositions.Corresponding | src/improve_stop_positions.rs:103-110 | the OSM lines kept are exactly those of the line's OSM network, compared almost equal, tagged `ref` with the line's code |
| ImproveStopPositions.CorrespondingUnique | src/improve_stop_positions.rs:103-111 | the filter keeps exactly one OSM line exactly when exactly one position of the OSM lines corresponds |
| ImproveStopPositions.EnrichedLineSpec | src/improve_stop_positions.rs:98-123 | a line changes only in its codes, and gains `osm_line_id`, `osm_network` and `osm_company` of its OSM line exactly when its network is mapped, it has a code and a single OSM line corresponds |
| ImproveStopPositions.AmbiguousLineUnchanged | src/improve_stop_positions.rs:103-122 | two corresponding OSM lines leave the line as it was |
| ImproveStopPositions.EnrichLines | src/improve_stop_positions.rs:98-190 | the loop over the lines enriches each line in place, as `EnrichedLine` says |
| ImproveStopPositions.CleanUpEntry | src/improve_stop_positions.rs:223-230 | one entry visited by `retain`: a kept entry stays, and a dropped one removes from the reverse map every key it names |
| ImproveStopPositions.CleanUpMultipleMappings | src/improve_stop_positions.rs:218-231 | `clean_up_multiple_mappings` leaves `Kept` and `Pruned` |
| ImproveStopPositions.CleanUpSpec | src/improve_stop_positions.rs:218-231 | after a cleanup an entry stays exactly when it pairs with one stop, or two when forced, and keeps its value; the stops of a dropped entry leave the reverse map, and the other reverse entries are kept |
| ImproveStopPositions.CleanedBothSpec | src/improve_stop_positions.rs:192-201 | after both cleanups every entry of either map is an original one pairing with one stop, or two when forced |
| ImproveStopPositions.DoublePairingDropped | src/improve_stop_positions.rs:223-224 | a stop point paired with two OSM stops loses its pairing unless matching of doubles is forced |
| ImproveStopPositions.AddOsmStopCodes | src/improve_stop_positions.rs:202-211 | every OSM stop paired with a stop point becomes an `osm_stop_points_id` code of that stop point, the others being unchanged |
| ImproveStopPositions.EnrichObjectCodes | src/improve_stop_positions.rs:50-216 | an unknown mapped network fails first; no OSM lines, then no OSM routes, fail naming the file; otherwise the lines are enriched one by one and the stop points get the codes of the doubly cleaned pairing |
| ReadShapes.ByIdKeys | src/read_shapes.rs:61 | the keys of the map are exactly the ids of the OSM objects |
| ReadShapes.ByIdLast | src/read_shapes.rs:61 | each id is mapped to the last object carrying it, as collecting pairs into a hash map does |
| ReadShapes.OsmObjectsById | src/read_shapes.rs:53-64 | an absent list fails naming the object type; otherwise the keys are exactly the ids of the objects |
| ReadShapes.CodeValue | src/read_shapes.rs:79-83 | the OSM id found is the value of a code with key `osm_<type>_id`, the smallest such value as the codes are a sorted set; there is none exactly when no code has that key |
| ReadShapes.GeoIdInjective | src/read_shapes.rs:97 | two different counters give two different geometry ids |
| ReadShapes.PopulatedObjects | src/read_shapes.rs:76-119 | the counter counts every object with an OSM code, and each object changes as `Outcome` says: a new geometry id numbered by the count of coded objects up to it, or no change |
| ReadShapes.PopulatedGeometries | src/read_shapes.rs:76-119 | the geometries already present stay in front, followed by one new geometry per object that gets one, each with that object's id and its OSM object's shape |
| ReadShapes.PopulatedGeometriesCover | src/read_shapes.rs:97-108 | every object that gets a geometry finds it among the new geometries |
| ReadShapes.PopulatedIdsDistinct | src/read_shapes.rs:84-97 | the new geometry ids are pairwise distinct, each numbered at most by the count of coded objects |
| ReadShapes.UnshapedUnchanged | src/read_shapes.rs:85-117 | an object that already has a geometry, whose OSM object is missing or has an empty shape is left as it was |
| ReadShapes.PopulatedIds | src/read_shapes.rs:76-120 | every object keeps its id |
| ReadShapes.PopulateShapes | src/read_shapes.rs:66-121 | `populate_shapes_for_collection` computes `Populated`, and the objects keep distinct ids, so rebuilding the collection cannot fail |
| ReadShapes.FromOsmPbf | src/read_shapes.rs:123-148 | `from_osm` computes `FromOsm` |
| ReadShapes.FromOsmMissing | src/read_shapes.rs:130-131 | a missing list of OSM lines or routes fails before anything else, lines first |
| ReadShapes.NumberedGenerated | src/read_shapes.rs:97 | every numbered geometry id has the generated form `geo:<type>:osm:<n>` |
| ReadShapes.LineRouteIdsDiffer | src/read_shapes.rs:133-144 | line and route geometry ids never collide |
| ReadShapes.PopulatedNewIds | src/read_shapes.rs:76-119 | the new geometries have distinct ids numbered for the object type, after the old ones |
| ReadShapes.FromOsmSucceeds | src/read_shapes.rs:130-147 | once both OSM lists exist, the import succeeds whenever the existing geometries have distinct ids none of which looks generated |
| NetexAccessibility.Named | netexidf2ntfs/src/netexidf/accessibility.rs:21-26 | the children kept are exactly those with the given name |
| NetexAccessibility.OnlyChild | netexidf2ntfs/src/netexidf/accessibility.rs:21-26 | a child is found exactly when exactly one child has the name, and it is that child |
| NetexAccessibility.AvailabilityOfSpec | netexidf2ntfs/src/netexidf/accessibility.rs:13-19 | "true" gives available, "false" not available, any other text information not available, case-sensitively |
| NetexAccessibility.AccessibilitySpec | netexidf2ntfs/src/netexidf/accessibility.rs:12-33 | there is a result exactly when the mobility element, the limitation and its two sign elements are each present once, and each field is then read from its own element |
| NetexAccessibility.AccessibilityExample | netexidf2ntfs/src/netexidf/accessibility.rs:12-33 | a complete element with "true", "false" and "unknown" gives available, not available and information not available |
| NetexAccessibility.AccessibilityMissing | netexidf2ntfs/src/netexidf/accessibility.rs:21 | without a mobility element there is no result |

## Left out

- Reading and writing files is not modelled: CSV, JSON, XML, zip and directory walks, and the errors of `File::open`, `ZipArchive::new` and the CSV readers. Each reader is given its parsed rows, and a row that fails to deserialise is an explicit error value carrying its message.
- Parsing OSM PBF files and `osm_transit_extractor` are not modelled. The OSM lines, routes, objects and stop pairings are inputs.
- `shape_to_multi_line_string` is not modelled: a geometry keeps the OSM shape as given.
- The route and stop pairing in `enrich_object_codes` (src/improve_stop_positions.rs:123-182) is not modelled. The two pairing maps it builds are inputs, and the cleanup and the stop codes that follow are modelled.
- `improve_with_pbf` (src/improve_stop_positions.rs:233-282) is not modelled: it is centroid and distance arithmetic on floating point.
- `parse_poi` and `extract_pois` (osm-utils/src/poi.rs:111-176) are not modelled. They need OSM objects and the coordinates of ways and relations, which are floating point. Their id (`FormatPoiId`) and properties (`MakeProperties`) are modelled.
- Coordinates are not computed. The proj conversions of the NaPTAN and KV1 readers are inputs (a converted coordinate or none), and coordinates are carried as `real` values that no operation reads.
- The CO2 emission, an `f32` in the source, is an integer.
- `unidecode` is a function parameter of `ImproveStopPositions`: its transliteration tables are not modelled.
- `chrono` date arithmetic is not modelled. The PIV stop times carry their offset in seconds from the first departure's midnight, already computed. The conversion of that offset to `u32` and its error are modelled.
- `update_validity_period`, `set_dataset_validity_period`, `enhance_route_names`, `calendar_deduplication`, `prefix`, `generates_transfers` and `Model::new` from transit_model are not modelled. Where a tool ends in `Model::new`, the model returns the collections.
- `CollectionWithId` is not modelled from its own source. Its `new`, `push`, `try_merge`, `merge` and `retain` are stated in `IdCollection` as the crate documents them.
- `StopArea::from(StopPoint)` is taken to give the area `Navitia:<stop id>`, named after the stop.
- Logging, the command lines, `src/runner.rs` and process exit are not modelled. The merge-ntfs fold over several inputs is not modelled either, and the `apply_rules` wiring in apply-rules/src/apply_rules/mod.rs is taken from its lines 53-61.
- Partial state after a failure is modelled where the source carries on past the failure, or where the method hands its state back with the error. `PivRead.ManageVehicle` returns the collections it has already extended (the vehicle is then skipped), and `Kv1Read.ReadOperday` returns the calendars read before the failing row.
- Where an error ends the run, a failing call returns only its error. What the source had already changed in place is then not modelled, for example in `MergeCollections.TryMergeCollections`, `Naptan.Read`, `ReadShapes.FromOsm` and `PoiMerge.Merged`.
- `Debug` formatting (`{:?}`) in messages is modelled as plain double quotes, without escaping.
- Hash-map iteration order is unspecified in Rust. Maps returned to the caller (POI merge, Sytral POI types) stay maps.
- RouteConsolidation.ConsolidateDirections: visits the directions of a line in ascending order, one of the orders the source's `HashMap` can yield. This order matters: when a regrouped route's id is the target id of another direction, the routes and journeys left after consolidation depend on which direction comes first (`DirectionOrderMatters` shows one such line). Other orders are not modelled.
- The filter triples are also visited in ascending order. The selection does not depend on that order (`SelectedOk`, `SelectedUnion`); only which failing triple's error is returned does (`SelectedError`).
- Transfer maps are keyed by the stop-point ids `(from, to)`, not by collection positions. Ids and positions are in one-to-one correspondence in a collection with distinct ids.
- ImproveStopPositions.CheckNetworks: says only that some mapped network that does not exist is reported, not which, because the mapping is a hash map.
- ImproveStopPositions.EnrichObjectCodes: does not state the "osm pbf path is not valid" error, which concerns the file name only.
- ReadShapes.FromOsmPbf: does not state the "osm pbf path is not valid" error of `src/read_shapes.rs:124-128`, which concerns the file name only; the parsed OSM lines and routes are its inputs.
- TartareTransfers.ApplyRules: requires that every existing transfer names known stop points, where the source would panic on an `unwrap`.
- TransfersRules.ApplyRules: requires that every existing transfer names known stop points (so do `ApplyRulesSpec` and the lemmas about it), where `transfers_map` in transfers/src/rules.rs:147-148 would panic on an `unwrap` before any rule is read.
- SytralPoi.ExtractFile: the panic of `label.unwrap()` on a record without label is modelled as an ordinary error, `MissingLabelPanic`, that ends the reading.
- SytralPoi.ExtractPois: a file's path is the directory, a `/` and the file name; `Path::join` is not modelled beyond that.
- The `u8` trip-property counter of the KV1 reader cannot overflow, as there are only three availabilities. Other fixed-width integers (`u32` times and sequences) are unbounded in the model.
- PivRead.PhysicalModeIgnoresCase: lower-cases ASCII letters only. Unicode `to_lowercase` differs only on letters outside ASCII, and the mode patterns are all ASCII.
- `tests/read_shapes_from_osm.rs:43-54` expects a panic that `src/read_shapes.rs:110-116` does not raise: that function only warns. The model follows the function.
- `src/poi/export.rs` and `src/export_pois.rs` are not modelled: they are serialisation.
