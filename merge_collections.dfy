/** merge-ntfs/src/merge_collections.rs: `try_merge_collections` folds an incoming dataset
  * into an accumulator, collection by collection. Strict collections refuse a duplicate id,
  * commercial modes, pathways and levels skip it, physical modes combine their CO2
  * values, id-less collections are concatenated, and every positional handle of the
  * incoming side (stop-time stop points, comment links, the `(journey, sequence)` side
  * tables) is rewritten through `old idx -> id -> merged idx`. */
module MergeCollections {
  import opened Wrappers
  import opened IdCollection
  import Upsert

  /** A record whose fields the merge never reads; only its id matters here. */
  datatype Entity = Entity(id: string, fields: seq<string>)

  /** A record of a collection without ids (frequencies, fares, transfers, ...). */
  type Row = seq<string>

  /** `co2_emission` is an `f32` in the source; only its order matters, so it is an `int`. */
  datatype PhysicalMode = PhysicalMode(id: string, name: string, co2_emission: Option<int>)

  /** Stop points and stop areas: the merge reads only their ids and comment links. */
  datatype Stop = Stop(id: string, name: string, comment_links: set<Idx>)

  datatype StopTime = StopTime(stop_point_idx: Idx, sequence: nat)

  datatype VehicleJourney = VehicleJourney(id: string, route_id: string, stop_times: seq<StopTime>)

  /** The key of the stop-time side tables: a journey handle and a stop sequence number. */
  type StopTimeKey = (Idx, nat)

  function EntityKey(e: Entity): string { e.id }
  function ModeKey(m: PhysicalMode): string { m.id }
  function StopKey(s: Stop): string { s.id }
  function JourneyKey(vj: VehicleJourney): string { vj.id }

  datatype Collections = Collections(
    contributors: seq<Entity>, datasets: seq<Entity>, networks: seq<Entity>,
    commercial_modes: seq<Entity>, lines: seq<Entity>, routes: seq<Entity>,
    vehicle_journeys: seq<VehicleJourney>, frequencies: seq<Row>,
    physical_modes: seq<PhysicalMode>, stop_areas: seq<Stop>, stop_points: seq<Stop>,
    calendars: seq<Entity>, companies: seq<Entity>, comments: seq<Entity>,
    equipments: seq<Entity>, transfers: seq<Row>, trip_properties: seq<Entity>,
    geometries: seq<Entity>, admin_stations: seq<Row>,
    stop_time_headsigns: map<StopTimeKey, string>, stop_time_ids: map<StopTimeKey, string>,
    stop_time_comments: map<StopTimeKey, Idx>,
    prices_v1: seq<Row>, od_fares_v1: seq<Row>, fares_v1: seq<Row>,
    tickets: seq<Entity>, ticket_uses: seq<Entity>, ticket_prices: seq<Row>,
    ticket_use_perimeters: seq<Row>, ticket_use_restrictions: seq<Row>,
    pathways: seq<Entity>, levels: seq<Entity>, grid_calendars: seq<Entity>,
    grid_exception_dates: seq<Row>, grid_periods: seq<Row>, grid_rel_calendar_line: seq<Row>)

  /** The invariant every `CollectionWithId` carries: distinct ids. */
  ghost predicate Valid(c: Collections)
  {
    UniqueIds(c.contributors, EntityKey) && UniqueIds(c.datasets, EntityKey)
    && UniqueIds(c.networks, EntityKey) && UniqueIds(c.commercial_modes, EntityKey)
    && UniqueIds(c.lines, EntityKey) && UniqueIds(c.routes, EntityKey)
    && UniqueIds(c.vehicle_journeys, JourneyKey) && UniqueIds(c.physical_modes, ModeKey)
    && UniqueIds(c.stop_areas, StopKey) && UniqueIds(c.stop_points, StopKey)
    && UniqueIds(c.calendars, EntityKey) && UniqueIds(c.companies, EntityKey)
    && UniqueIds(c.comments, EntityKey) && UniqueIds(c.equipments, EntityKey)
    && UniqueIds(c.trip_properties, EntityKey) && UniqueIds(c.geometries, EntityKey)
    && UniqueIds(c.tickets, EntityKey) && UniqueIds(c.ticket_uses, EntityKey)
    && UniqueIds(c.pathways, EntityKey) && UniqueIds(c.levels, EntityKey)
    && UniqueIds(c.grid_calendars, EntityKey)
  }

  /** A merge either fails with the error `try_merge` returned, or panics on an `unwrap`. */
  datatype MergeFailure = Error(message: string) | Panic(reason: string)

  /** `try_merge` with its error lifted to a merge failure: it succeeds exactly when no id
    * is on both sides, and then appends the incoming records unchanged; otherwise the error
    * names the first incoming id that the accumulator already holds. */
  function Strict<T>(acc: seq<T>, key: T -> string, incoming: seq<T>): (r: Result<seq<T>, MergeFailure>)
    requires UniqueIds(acc, key) && UniqueIds(incoming, key)
    ensures r.Ok? <==> IdSet(acc, key) !! IdSet(incoming, key)
    ensures r.Ok? ==> r.value == acc + incoming && UniqueIds(r.value, key)
    ensures r.Err? ==> r.error.Error? && exists j ::
      && 0 <= j < |incoming|
      && r.error.message == DuplicateMessage(key(incoming[j])) && key(incoming[j]) in IdSet(acc, key)
      && forall k :: 0 <= k < j ==> key(incoming[k]) !in IdSet(acc, key)
  {
    TryMergeSpec(acc, key, incoming);
    UniqueIdsAppend(acc, incoming, key);
    match TryMerge(acc, key, incoming)
    case Ok(v) => Ok(v)
    case Err(m) => TryMergeFirstClash(acc, key, incoming); Err(Error(m))
  }

  // ----- physical modes (lines 77-97) -----

  /** The CO2 value kept when two physical modes share an id. */
  function MergeCo2(existing: Option<int>, incoming: Option<int>): (r: Option<int>)
    ensures r.None? <==> existing.None? && incoming.None?
    ensures existing.Some? ==> r.Some? && r.value >= existing.value
    ensures incoming.Some? ==> r.Some? && r.value >= incoming.value
    ensures r.Some? ==> r == existing || r == incoming
  {
    match (existing, incoming)
    case (Some(e), Some(n)) => Some(if e >= n then e else n)
    case (Some(e), None) => Some(e)
    case (None, Some(n)) => Some(n)
    case (None, None) => None
  }

  /** The existing record is kept; only its CO2 value changes. */
  function CombineModes(existing: PhysicalMode, incoming: PhysicalMode): PhysicalMode
  {
    existing.(co2_emission := MergeCo2(existing.co2_emission, incoming.co2_emission))
  }

  /** The loop over the incoming physical modes. */
  method MergePhysicalModes(acc: seq<PhysicalMode>, incoming: seq<PhysicalMode>) returns (r: seq<PhysicalMode>)
    ensures r == Upsert.UpsertAll(acc, ModeKey, CombineModes, incoming)
  {
    r := acc;
    var i := 0;
    while i < |incoming|
      invariant i <= |incoming| && r == Upsert.UpsertAll(acc, ModeKey, CombineModes, incoming[..i])
    {
      var physical_mode := incoming[i];
      match GetIdx(r, ModeKey, physical_mode.id) {
        case Some(idx) =>
          r := r[idx := r[idx].(co2_emission := MergeCo2(r[idx].co2_emission, physical_mode.co2_emission))];
        case None =>
          r := r + [physical_mode];
      }
      assert incoming[..i + 1][..i] == incoming[..i];
      i := i + 1;
    }
    assert incoming[..i] == incoming;
  }

  /** After the loop every existing mode keeps its place, id and name, and takes the larger
    * CO2 value of the two (or the one that is set); modes with a new id are appended in
    * order. */
  lemma PhysicalModesSpec(acc: seq<PhysicalMode>, incoming: seq<PhysicalMode>)
    requires UniqueIds(acc, ModeKey) && UniqueIds(incoming, ModeKey)
    ensures var r := Upsert.UpsertAll(acc, ModeKey, CombineModes, incoming);
      && UniqueIds(r, ModeKey)
      && r == Upsert.CombinedAll(acc, ModeKey, CombineModes, incoming) + Retain(incoming, Upsert.IsNew(acc, ModeKey))
      && (forall i :: 0 <= i < |acc| ==> r[i].id == acc[i].id && r[i].name == acc[i].name)
      && (forall i, j :: 0 <= i < |acc| && 0 <= j < |incoming| && acc[i].id == incoming[j].id ==>
            r[i].co2_emission == MergeCo2(acc[i].co2_emission, incoming[j].co2_emission))
      && (forall i :: 0 <= i < |acc| && acc[i].id !in IdSet(incoming, ModeKey) ==> r[i] == acc[i])
  {
    assert Upsert.KeepsKey(ModeKey, CombineModes);
    Upsert.UpsertSpec(acc, ModeKey, CombineModes, incoming);
    Upsert.UpsertIds(acc, ModeKey, CombineModes, incoming);
    forall i, j | 0 <= i < |acc| && 0 <= j < |incoming| && acc[i].id == incoming[j].id
      ensures Upsert.CombinedWithMatch(acc[i], ModeKey, CombineModes, incoming) == CombineModes(acc[i], incoming[j])
    {
      GetIdxOfMember(incoming, ModeKey, j);
    }
  }

  /** The two cases the source's tests check: 21 and 42 give 42, nothing and 42 give 42. */
  lemma Co2Examples()
    ensures MergeCo2(Some(21), Some(42)) == Some(42)
    ensures MergeCo2(None, Some(42)) == Some(42)
    ensures MergeCo2(None, None) == None
  {
  }

  // ----- handle translation (lines 120-134) -----

  /** `idx_to_id`: every handle of a collection with the id it designates. */
  function IdxToId<T>(s: seq<T>, key: T -> string): (m: map<Idx, string>)
    ensures forall i :: 0 <= i < |s| ==> i in m && m[i] == key(s[i])
    ensures forall i :: i in m ==> i < |s|
  {
    map i | 0 <= i < |s| :: key(s[i])
  }

  /** `get_new_idx`: a handle of the incoming collection, looked up by its id in the merged
    * one. */
  function GetNewIdx<T>(oldIdx: Idx, oldIdxToId: map<Idx, string>, merged: seq<T>, key: T -> string): (r: Option<Idx>)
    ensures r.Some? ==> oldIdx in oldIdxToId && r.value < |merged| && key(merged[r.value]) == oldIdxToId[oldIdx]
    ensures r.None? <==> oldIdx !in oldIdxToId || oldIdxToId[oldIdx] !in IdSet(merged, key)
  {
    if oldIdx in oldIdxToId then GetIdx(merged, key, oldIdxToId[oldIdx]) else None
  }

  // ----- comment links (lines 137-152, 159-160) -----

  /** The comment links of one incoming object, translated; unresolved links are dropped. */
  function TranslatedLinks(links: set<Idx>, cIdxToId: map<Idx, string>, comments: seq<Entity>): set<Idx>
  {
    set c | c in links && GetNewIdx(c, cIdxToId, comments, EntityKey).Some? :: GetNewIdx(c, cIdxToId, comments, EntityKey).value
  }

  /** Every translated link designates a comment with the id the original link designated,
    * and every link that resolves is kept. */
  lemma TranslatedLinksSpec(links: set<Idx>, cIdxToId: map<Idx, string>, comments: seq<Entity>)
    ensures var r := TranslatedLinks(links, cIdxToId, comments);
      && (forall n :: n in r ==> n < |comments| && exists c :: c in links && c in cIdxToId && comments[n].id == cIdxToId[c])
      && (forall c :: c in links && c in cIdxToId && cIdxToId[c] in IdSet(comments, EntityKey) ==>
            GetIdx(comments, EntityKey, cIdxToId[c]).value in r)
  {
    var r := TranslatedLinks(links, cIdxToId, comments);
    forall n | n in r ensures n < |comments| && exists c :: c in links && c in cIdxToId && comments[n].id == cIdxToId[c] {
      var c :| c in links && GetNewIdx(c, cIdxToId, comments, EntityKey).Some? && GetNewIdx(c, cIdxToId, comments, EntityKey).value == n;
    }
  }

  function WithTranslatedLinks(s: Stop, cIdxToId: map<Idx, string>, comments: seq<Entity>): Stop
  {
    s.(comment_links := TranslatedLinks(s.comment_links, cIdxToId, comments))
  }

  /** `update_comment_idx`: rewrites the comment links of every object of the collection. */
  method UpdateCommentIdx(stops: seq<Stop>, cIdxToId: map<Idx, string>, comments: seq<Entity>) returns (r: seq<Stop>)
    ensures |r| == |stops|
    ensures forall i :: 0 <= i < |stops| ==> r[i] == WithTranslatedLinks(stops[i], cIdxToId, comments)
  {
    r := [];
    var i := 0;
    while i < |stops|
      invariant i <= |stops| && |r| == i
      invariant forall k :: 0 <= k < i ==> r[k] == WithTranslatedLinks(stops[k], cIdxToId, comments)
    {
      var obj := stops[i];
      r := r + [obj.(comment_links := TranslatedLinks(obj.comment_links, cIdxToId, comments))];
      i := i + 1;
    }
  }

  function AllWithTranslatedLinks(stops: seq<Stop>, cIdxToId: map<Idx, string>, comments: seq<Entity>): (r: seq<Stop>)
    ensures |r| == |stops| && forall i :: 0 <= i < |stops| ==> r[i] == WithTranslatedLinks(stops[i], cIdxToId, comments)
  {
    seq(|stops|, i requires 0 <= i < |stops| => WithTranslatedLinks(stops[i], cIdxToId, comments))
  }

  // ----- stop times (lines 165-176) -----

  /** One stop time: repointed when its stop point resolves in the merged collection,
    * left as it was otherwise. */
  function RemappedStopTime(st: StopTime, spIdxToId: map<Idx, string>, stopPoints: seq<Stop>): StopTime
  {
    match GetNewIdx(st.stop_point_idx, spIdxToId, stopPoints, StopKey)
    case Some(n) => st.(stop_point_idx := n)
    case None => st
  }

  function RemappedJourney(vj: VehicleJourney, spIdxToId: map<Idx, string>, stopPoints: seq<Stop>): (r: VehicleJourney)
    ensures r.id == vj.id && r.route_id == vj.route_id && |r.stop_times| == |vj.stop_times|
    ensures forall j :: 0 <= j < |vj.stop_times| ==> r.stop_times[j] == RemappedStopTime(vj.stop_times[j], spIdxToId, stopPoints)
  {
    vj.(stop_times := seq(|vj.stop_times|, j requires 0 <= j < |vj.stop_times| => RemappedStopTime(vj.stop_times[j], spIdxToId, stopPoints)))
  }

  /** Handle-remap correctness: a stop time that resolves now designates, in the merged
    * stop points, a stop point with the id its old handle designated in the incoming
    * ones; one that does not resolve keeps its handle; the sequence never changes. */
  lemma RemappedStopTimeSpec(st: StopTime, incoming: seq<Stop>, merged: seq<Stop>)
    requires UniqueIds(merged, StopKey)
    ensures var r := RemappedStopTime(st, IdxToId(incoming, StopKey), merged);
      && r.sequence == st.sequence
      && (st.stop_point_idx < |incoming| && incoming[st.stop_point_idx].id in IdSet(merged, StopKey) ==>
            r.stop_point_idx < |merged| && merged[r.stop_point_idx].id == incoming[st.stop_point_idx].id)
      && (st.stop_point_idx >= |incoming| || incoming[st.stop_point_idx].id !in IdSet(merged, StopKey) ==> r == st)
  {
  }

  /** The stop-time loop over every incoming journey. */
  method RemapStopTimes(vjs: seq<VehicleJourney>, spIdxToId: map<Idx, string>, stopPoints: seq<Stop>)
    returns (r: seq<VehicleJourney>)
    ensures |r| == |vjs|
    ensures forall i :: 0 <= i < |vjs| ==> r[i] == RemappedJourney(vjs[i], spIdxToId, stopPoints)
  {
    r := [];
    var i := 0;
    while i < |vjs|
      invariant i <= |vjs| && |r| == i
      invariant forall k :: 0 <= k < i ==> r[k] == RemappedJourney(vjs[k], spIdxToId, stopPoints)
    {
      var vj := vjs[i];
      var sts := vj.stop_times;
      var j := 0;
      while j < |sts|
        invariant j <= |sts| && |sts| == |vj.stop_times|
        invariant forall k :: 0 <= k < j ==> sts[k] == RemappedStopTime(vj.stop_times[k], spIdxToId, stopPoints)
        invariant forall k :: j <= k < |sts| ==> sts[k] == vj.stop_times[k]
      {
        match GetNewIdx(sts[j].stop_point_idx, spIdxToId, stopPoints, StopKey) {
          case Some(new_idx) => sts := sts[j := sts[j].(stop_point_idx := new_idx)];
          case None =>
        }
        j := j + 1;
      }
      r := r + [vj.(stop_times := sts)];
      i := i + 1;
    }
  }

  function AllRemapped(vjs: seq<VehicleJourney>, spIdxToId: map<Idx, string>, stopPoints: seq<Stop>): (r: seq<VehicleJourney>)
    ensures |r| == |vjs| && forall i :: 0 <= i < |vjs| ==> r[i] == RemappedJourney(vjs[i], spIdxToId, stopPoints)
    ensures forall i :: 0 <= i < |vjs| ==> r[i].id == vjs[i].id
  {
    seq(|vjs|, i requires 0 <= i < |vjs| => RemappedJourney(vjs[i], spIdxToId, stopPoints))
  }

  // ----- side tables (lines 179-213) -----

  /** `get_new_idx` tabulated over the handles of one collection: the handles that resolve,
    * each with its handle in the merged collection. */
  function NewIdxMap<T>(oldIdxToId: map<Idx, string>, merged: seq<T>, key: T -> string): (m: map<Idx, Idx>)
    ensures forall i :: i in m <==> i in oldIdxToId && oldIdxToId[i] in IdSet(merged, key)
    ensures forall i :: i in m ==> Some(m[i]) == GetNewIdx(i, oldIdxToId, merged, key)
  {
    map i | i in oldIdxToId && GetNewIdx(i, oldIdxToId, merged, key).Some? :: GetNewIdx(i, oldIdxToId, merged, key).value
  }

  ghost predicate Injective(m: map<Idx, Idx>)
  {
    forall a, b :: a in m && b in m && m[a] == m[b] ==> a == b
  }

  /** Distinct handles of a collection with distinct ids never resolve to the same handle. */
  lemma NewIdxMapInjective<T>(incoming: seq<T>, merged: seq<T>, key: T -> string)
    requires UniqueIds(incoming, key)
    ensures Injective(NewIdxMap(IdxToId(incoming, key), merged, key))
  {
  }

  /** `update_vj_idx`: the entries whose journey resolves, re-keyed to the merged journey
    * with the same sequence; the others are dropped. */
  function RekeyedByJourney<V>(table: map<StopTimeKey, V>, vjMap: map<Idx, Idx>): map<StopTimeKey, V>
    requires Injective(vjMap)
  {
    map k | k in table && k.0 in vjMap :: (vjMap[k.0], k.1) := table[k]
  }

  /** The entries of `done` whose journey and comment resolve, re-keyed and re-pointed. */
  function RekeyedPart(table: map<StopTimeKey, Idx>, done: set<StopTimeKey>, vjMap: map<Idx, Idx>, cMap: map<Idx, Idx>)
    : map<StopTimeKey, Idx>
    requires Injective(vjMap)
  {
    map k | k in done && k in table && k.0 in vjMap && table[k] in cMap :: (vjMap[k.0], k.1) := cMap[table[k]]
  }

  /** The stop-time comments of the incoming side, re-keyed and re-pointed; `None` when an
    * entry's journey or comment does not resolve, where the source unwraps a `None` and
    * panics. */
  function RekeyedComments(table: map<StopTimeKey, Idx>, vjMap: map<Idx, Idx>, cMap: map<Idx, Idx>)
    : Option<map<StopTimeKey, Idx>>
    requires Injective(vjMap)
  {
    if exists k :: k in table && (k.0 !in vjMap || table[k] !in cMap) then None
    else Some(RekeyedPart(table, table.Keys, vjMap, cMap))
  }

  lemma RekeyedPartAdd(table: map<StopTimeKey, Idx>, done: set<StopTimeKey>, k: StopTimeKey, vjMap: map<Idx, Idx>, cMap: map<Idx, Idx>)
    requires Injective(vjMap)
    requires k in table && k !in done && k.0 in vjMap && table[k] in cMap
    ensures RekeyedPart(table, done + {k}, vjMap, cMap) == RekeyedPart(table, done, vjMap, cMap)[(vjMap[k.0], k.1) := cMap[table[k]]]
  {
    var before := RekeyedPart(table, done, vjMap, cMap);
    var after := RekeyedPart(table, done + {k}, vjMap, cMap);
    var nk := (vjMap[k.0], k.1);
    var expected := before[nk := cMap[table[k]]];
    forall q | q in after ensures q in expected && after[q] == expected[q] {
      var k' :| k' in done + {k} && k' in table && k'.0 in vjMap && table[k'] in cMap && q == (vjMap[k'.0], k'.1);
      if k' != k {
        assert q in before && before[q] == after[q];
      }
    }
    forall q | q in expected ensures q in after {
      if q != nk {
        var k' :| k' in done && k' in table && k'.0 in vjMap && table[k'] in cMap && q == (vjMap[k'.0], k'.1);
        assert k' in done + {k};
      }
    }
  }

  lemma RekeyedPartNone(table: map<StopTimeKey, Idx>, vjMap: map<Idx, Idx>, cMap: map<Idx, Idx>)
    requires Injective(vjMap)
    ensures RekeyedPart(table, {}, vjMap, cMap) == map[]
  {
  }

  lemma RekeyedCommentsStop(table: map<StopTimeKey, Idx>, vjMap: map<Idx, Idx>, cMap: map<Idx, Idx>, k: StopTimeKey)
    requires Injective(vjMap)
    requires k in table && (k.0 !in vjMap || table[k] !in cMap)
    ensures RekeyedComments(table, vjMap, cMap) == None
  {
  }

  lemma RekeyedCommentsAll(table: map<StopTimeKey, Idx>, vjMap: map<Idx, Idx>, cMap: map<Idx, Idx>, done: set<StopTimeKey>)
    requires Injective(vjMap)
    requires done == table.Keys && forall k :: k in done ==> k.0 in vjMap && table[k] in cMap
    ensures RekeyedComments(table, vjMap, cMap) == Some(RekeyedPart(table, done, vjMap, cMap))
  {
  }

  /** The loop of lines 204-210, over the keys in some order: it stops at the first entry
    * that does not resolve. */
  method RekeyComments(table: map<StopTimeKey, Idx>, vjMap: map<Idx, Idx>, cMap: map<Idx, Idx>)
    returns (r: Option<map<StopTimeKey, Idx>>)
    requires Injective(vjMap)
    ensures r == RekeyedComments(table, vjMap, cMap)
  {
    var acc: map<StopTimeKey, Idx> := map[];
    var rest := table.Keys;
    ghost var done: set<StopTimeKey> := {};
    RekeyedPartNone(table, vjMap, cMap);
    while rest != {}
      invariant rest !! done && rest + done == table.Keys
      invariant forall k :: k in done ==> k.0 in vjMap && table[k] in cMap
      invariant acc == RekeyedPart(table, done, vjMap, cMap)
      decreases rest
    {
      var k :| k in rest;
      assert k in table;
      if k.0 !in vjMap || table[k] !in cMap {
        RekeyedCommentsStop(table, vjMap, cMap, k);
        return None;
      }
      RekeyedPartAdd(table, done, k, vjMap, cMap);
      acc := acc[(vjMap[k.0], k.1) := cMap[table[k]]];
      rest := rest - {k};
      done := done + {k};
    }
    RekeyedCommentsAll(table, vjMap, cMap, done);
    return Some(acc);
  }

  // ----- the whole merge (lines 27-222) -----

  /** The message of the panic at lines 207-208. */
  const UnwrapNone := "called `Option::unwrap()` on a `None` value"

  /** No id on both sides in the strict collections of lines 70-113. */
  ghost predicate ObjectsDisjoint(c: Collections, e: Collections)
  {
    IdSet(c.contributors, EntityKey) !! IdSet(e.contributors, EntityKey)
    && IdSet(c.datasets, EntityKey) !! IdSet(e.datasets, EntityKey)
    && IdSet(c.networks, EntityKey) !! IdSet(e.networks, EntityKey)
    && IdSet(c.lines, EntityKey) !! IdSet(e.lines, EntityKey)
    && IdSet(c.routes, EntityKey) !! IdSet(e.routes, EntityKey)
    && IdSet(c.tickets, EntityKey) !! IdSet(e.tickets, EntityKey)
    && IdSet(c.ticket_uses, EntityKey) !! IdSet(e.ticket_uses, EntityKey)
    && IdSet(c.grid_calendars, EntityKey) !! IdSet(e.grid_calendars, EntityKey)
  }

  /** The same for the collections of lines 158-177. */
  ghost predicate StopsDisjoint(c: Collections, e: Collections)
  {
    IdSet(c.comments, EntityKey) !! IdSet(e.comments, EntityKey)
    && IdSet(c.stop_points, StopKey) !! IdSet(e.stop_points, StopKey)
    && IdSet(c.stop_areas, StopKey) !! IdSet(e.stop_areas, StopKey)
    && IdSet(c.vehicle_journeys, JourneyKey) !! IdSet(e.vehicle_journeys, JourneyKey)
  }

  /** The same for the collections of lines 214-219. */
  ghost predicate LateDisjoint(c: Collections, e: Collections)
  {
    IdSet(c.calendars, EntityKey) !! IdSet(e.calendars, EntityKey)
    && IdSet(c.companies, EntityKey) !! IdSet(e.companies, EntityKey)
    && IdSet(c.equipments, EntityKey) !! IdSet(e.equipments, EntityKey)
    && IdSet(c.trip_properties, EntityKey) !! IdSet(e.trip_properties, EntityKey)
    && IdSet(c.geometries, EntityKey) !! IdSet(e.geometries, EntityKey)
  }

  /** Every incoming stop-time comment designates an incoming journey and an incoming
    * comment. */
  ghost predicate CommentsResolvable(e: Collections)
  {
    forall k :: k in e.stop_time_comments ==> k.0 < |e.vehicle_journeys| && e.stop_time_comments[k] < |e.comments|
  }

  /** Lines 70-118: every collection that no handle refers to. */
  function MergeObjects(c: Collections, e: Collections): (r: Result<Collections, MergeFailure>)
    requires Valid(c) && Valid(e)
    ensures r.Err? ==> r.error.Error? && exists id :: r.error.message == DuplicateMessage(id)
    ensures r.Ok? <==> ObjectsDisjoint(c, e)
    ensures r.Ok? ==> Valid(r.value)
    ensures r.Ok? ==> var v := r.value;
      v.vehicle_journeys == c.vehicle_journeys && v.stop_areas == c.stop_areas && v.stop_points == c.stop_points
      && v.calendars == c.calendars && v.companies == c.companies && v.comments == c.comments
      && v.equipments == c.equipments && v.transfers == c.transfers && v.trip_properties == c.trip_properties
      && v.geometries == c.geometries && v.admin_stations == c.admin_stations
      && v.stop_time_headsigns == c.stop_time_headsigns && v.stop_time_ids == c.stop_time_ids
      && v.stop_time_comments == c.stop_time_comments
  {
    var contributors :- Strict(c.contributors, EntityKey, e.contributors);
    var datasets :- Strict(c.datasets, EntityKey, e.datasets);
    var networks :- Strict(c.networks, EntityKey, e.networks);
    var commercial_modes := MergeWithId(c.commercial_modes, EntityKey, e.commercial_modes);
    var lines :- Strict(c.lines, EntityKey, e.lines);
    var routes :- Strict(c.routes, EntityKey, e.routes);
    var physical_modes := Upsert.UpsertAll(c.physical_modes, ModeKey, CombineModes, e.physical_modes);
    var tickets :- Strict(c.tickets, EntityKey, e.tickets);
    var ticket_uses :- Strict(c.ticket_uses, EntityKey, e.ticket_uses);
    var pathways := MergeWithId(c.pathways, EntityKey, e.pathways);
    var levels := MergeWithId(c.levels, EntityKey, e.levels);
    var grid_calendars :- Strict(c.grid_calendars, EntityKey, e.grid_calendars);
    MergeWithIdSpec(c.commercial_modes, EntityKey, e.commercial_modes);
    MergeWithIdSpec(c.pathways, EntityKey, e.pathways);
    MergeWithIdSpec(c.levels, EntityKey, e.levels);
    assert Upsert.KeepsKey(ModeKey, CombineModes);
    Upsert.UpsertIds(c.physical_modes, ModeKey, CombineModes, e.physical_modes);
    Ok(c.(contributors := contributors, datasets := datasets, networks := networks,
          commercial_modes := commercial_modes, lines := lines, routes := routes,
          frequencies := c.frequencies + e.frequencies, physical_modes := physical_modes,
          prices_v1 := c.prices_v1 + e.prices_v1, od_fares_v1 := c.od_fares_v1 + e.od_fares_v1,
          fares_v1 := c.fares_v1 + e.fares_v1, tickets := tickets, ticket_uses := ticket_uses,
          ticket_prices := c.ticket_prices + e.ticket_prices,
          ticket_use_perimeters := c.ticket_use_perimeters + e.ticket_use_perimeters,
          ticket_use_restrictions := c.ticket_use_restrictions + e.ticket_use_restrictions,
          pathways := pathways, levels := levels, grid_calendars := grid_calendars,
          grid_exception_dates := c.grid_exception_dates + e.grid_exception_dates,
          grid_periods := c.grid_periods + e.grid_periods,
          grid_rel_calendar_line := c.grid_rel_calendar_line + e.grid_rel_calendar_line))
  }

  /** Lines 154-177: comments, then the stops whose comment links are translated first,
    * then the journeys whose stop times are re-pointed first. */
  function MergeStops(c: Collections, e: Collections): (r: Result<Collections, MergeFailure>)
    requires Valid(c) && Valid(e)
    ensures r.Err? ==> r.error.Error? && exists id :: r.error.message == DuplicateMessage(id)
    ensures r.Ok? <==> StopsDisjoint(c, e)
    ensures r.Ok? ==> Valid(r.value)
    ensures r.Ok? ==> r.value == c.(comments := r.value.comments, stop_points := r.value.stop_points,
                                    stop_areas := r.value.stop_areas, vehicle_journeys := r.value.vehicle_journeys)
  {
    var spIdxToId := IdxToId(e.stop_points, StopKey);
    var cIdxToId := IdxToId(e.comments, EntityKey);
    var comments :- Strict(c.comments, EntityKey, e.comments);
    StopsWithLinksIds(e.stop_points, cIdxToId, comments);
    StopsWithLinksIds(e.stop_areas, cIdxToId, comments);
    var stop_points :- Strict(c.stop_points, StopKey, AllWithTranslatedLinks(e.stop_points, cIdxToId, comments));
    var stop_areas :- Strict(c.stop_areas, StopKey, AllWithTranslatedLinks(e.stop_areas, cIdxToId, comments));
    RemappedIds(e.vehicle_journeys, spIdxToId, stop_points);
    var vehicle_journeys :- Strict(c.vehicle_journeys, JourneyKey, AllRemapped(e.vehicle_journeys, spIdxToId, stop_points));
    Ok(c.(comments := comments, stop_points := stop_points, stop_areas := stop_areas, vehicle_journeys := vehicle_journeys))
  }

  /** Lines 179-213: the incoming side tables, re-keyed against the merged journeys and
    * comments of `c`, extend those of `c` (an incoming entry wins over an existing one with
    * the same key). */
  function MergeSideTables(c: Collections, e: Collections): (r: Result<Collections, MergeFailure>)
    requires Valid(e)
    ensures r.Ok? ==> r.value == c.(stop_time_headsigns := r.value.stop_time_headsigns,
                                    stop_time_ids := r.value.stop_time_ids,
                                    stop_time_comments := r.value.stop_time_comments)
    ensures r.Err? ==> r.error == Panic(UnwrapNone)
  {
    var vjIdxToId := IdxToId(e.vehicle_journeys, JourneyKey);
    var cIdxToId := IdxToId(e.comments, EntityKey);
    NewIdxMapInjective(e.vehicle_journeys, c.vehicle_journeys, JourneyKey);
    var vjMap := NewIdxMap(vjIdxToId, c.vehicle_journeys, JourneyKey);
    var cMap := NewIdxMap(cIdxToId, c.comments, EntityKey);
    var newComments := RekeyedComments(e.stop_time_comments, vjMap, cMap);
    if newComments.None? then Err(Panic(UnwrapNone))
    else
      Ok(c.(stop_time_headsigns := c.stop_time_headsigns + RekeyedByJourney(e.stop_time_headsigns, vjMap),
            stop_time_ids := c.stop_time_ids + RekeyedByJourney(e.stop_time_ids, vjMap),
            stop_time_comments := c.stop_time_comments + newComments.value))
  }

  /** Lines 214-220. */
  function MergeRest(c: Collections, e: Collections): (r: Result<Collections, MergeFailure>)
    requires Valid(c) && Valid(e)
    ensures r.Err? ==> r.error.Error? && exists id :: r.error.message == DuplicateMessage(id)
    ensures r.Ok? <==> LateDisjoint(c, e)
    ensures r.Ok? ==> Valid(r.value)
  {
    var calendars :- Strict(c.calendars, EntityKey, e.calendars);
    var companies :- Strict(c.companies, EntityKey, e.companies);
    var equipments :- Strict(c.equipments, EntityKey, e.equipments);
    var trip_properties :- Strict(c.trip_properties, EntityKey, e.trip_properties);
    var geometries :- Strict(c.geometries, EntityKey, e.geometries);
    Ok(c.(calendars := calendars, companies := companies, equipments := equipments,
          transfers := c.transfers + e.transfers, trip_properties := trip_properties,
          geometries := geometries, admin_stations := c.admin_stations + e.admin_stations))
  }

  /** What `try_merge_collections` returns: the four stages in the source's order, each
    * applied to what the previous one produced; the first strict collection with a shared
    * id fails the merge, and a stop-time comment that does not resolve panics. */
  function Merged(c: Collections, e: Collections): (r: Result<Collections, MergeFailure>)
    requires Valid(c) && Valid(e)
    ensures r.Ok? ==> Valid(r.value)
  {
    var objects :- MergeObjects(c, e);
    var stops :- MergeStops(objects, e);
    var tables :- MergeSideTables(stops, e);
    MergeRest(tables, e)
  }

  /** Re-pointing stop times keeps every journey id, so the incoming journeys keep distinct
    * ids (the source re-checks this at line 176, which therefore never fails). */
  lemma RemappedIds(vjs: seq<VehicleJourney>, spIdxToId: map<Idx, string>, stopPoints: seq<Stop>)
    requires UniqueIds(vjs, JourneyKey)
    ensures UniqueIds(AllRemapped(vjs, spIdxToId, stopPoints), JourneyKey)
    ensures IdSet(AllRemapped(vjs, spIdxToId, stopPoints), JourneyKey) == IdSet(vjs, JourneyKey)
  {
  }

  lemma StopsWithLinksIds(stops: seq<Stop>, cIdxToId: map<Idx, string>, comments: seq<Entity>)
    requires UniqueIds(stops, StopKey)
    ensures UniqueIds(AllWithTranslatedLinks(stops, cIdxToId, comments), StopKey)
    ensures IdSet(AllWithTranslatedLinks(stops, cIdxToId, comments), StopKey) == IdSet(stops, StopKey)
  {
  }

  /** Lines 70-118, with the physical-mode loop. */
  method MergeObjectsInto(c: Collections, e: Collections) returns (r: Result<Collections, MergeFailure>)
    requires Valid(c) && Valid(e)
    ensures r == MergeObjects(c, e)
  {
    var contributors :- Strict(c.contributors, EntityKey, e.contributors);
    var datasets :- Strict(c.datasets, EntityKey, e.datasets);
    var networks :- Strict(c.networks, EntityKey, e.networks);
    var commercial_modes := MergeWithId(c.commercial_modes, EntityKey, e.commercial_modes);
    var lines :- Strict(c.lines, EntityKey, e.lines);
    var routes :- Strict(c.routes, EntityKey, e.routes);
    var physical_modes := MergePhysicalModes(c.physical_modes, e.physical_modes);
    var tickets :- Strict(c.tickets, EntityKey, e.tickets);
    var ticket_uses :- Strict(c.ticket_uses, EntityKey, e.ticket_uses);
    var pathways := MergeWithId(c.pathways, EntityKey, e.pathways);
    var levels := MergeWithId(c.levels, EntityKey, e.levels);
    var grid_calendars :- Strict(c.grid_calendars, EntityKey, e.grid_calendars);
    return Ok(c.(contributors := contributors, datasets := datasets, networks := networks,
          commercial_modes := commercial_modes, lines := lines, routes := routes,
          frequencies := c.frequencies + e.frequencies, physical_modes := physical_modes,
          prices_v1 := c.prices_v1 + e.prices_v1, od_fares_v1 := c.od_fares_v1 + e.od_fares_v1,
          fares_v1 := c.fares_v1 + e.fares_v1, tickets := tickets, ticket_uses := ticket_uses,
          ticket_prices := c.ticket_prices + e.ticket_prices,
          ticket_use_perimeters := c.ticket_use_perimeters + e.ticket_use_perimeters,
          ticket_use_restrictions := c.ticket_use_restrictions + e.ticket_use_restrictions,
          pathways := pathways, levels := levels, grid_calendars := grid_calendars,
          grid_exception_dates := c.grid_exception_dates + e.grid_exception_dates,
          grid_periods := c.grid_periods + e.grid_periods,
          grid_rel_calendar_line := c.grid_rel_calendar_line + e.grid_rel_calendar_line));
  }

  /** Lines 154-177, with the comment-link and stop-time loops. */
  method MergeStopsInto(c: Collections, e: Collections) returns (r: Result<Collections, MergeFailure>)
    requires Valid(c) && Valid(e)
    ensures r == MergeStops(c, e)
  {
    var spIdxToId := IdxToId(e.stop_points, StopKey);
    var cIdxToId := IdxToId(e.comments, EntityKey);
    var comments :- Strict(c.comments, EntityKey, e.comments);
    var incomingStopPoints := UpdateCommentIdx(e.stop_points, cIdxToId, comments);
    var incomingStopAreas := UpdateCommentIdx(e.stop_areas, cIdxToId, comments);
    assert incomingStopPoints == AllWithTranslatedLinks(e.stop_points, cIdxToId, comments);
    assert incomingStopAreas == AllWithTranslatedLinks(e.stop_areas, cIdxToId, comments);
    StopsWithLinksIds(e.stop_points, cIdxToId, comments);
    StopsWithLinksIds(e.stop_areas, cIdxToId, comments);
    var stop_points :- Strict(c.stop_points, StopKey, incomingStopPoints);
    var stop_areas :- Strict(c.stop_areas, StopKey, incomingStopAreas);
    var vjs := RemapStopTimes(e.vehicle_journeys, spIdxToId, stop_points);
    assert vjs == AllRemapped(e.vehicle_journeys, spIdxToId, stop_points);
    RemappedIds(e.vehicle_journeys, spIdxToId, stop_points);
    var vehicle_journeys :- Strict(c.vehicle_journeys, JourneyKey, vjs);
    return Ok(c.(comments := comments, stop_points := stop_points, stop_areas := stop_areas,
                 vehicle_journeys := vehicle_journeys));
  }

  /** Lines 179-213, with the stop-time comment loop. */
  method MergeSideTablesInto(c: Collections, e: Collections) returns (r: Result<Collections, MergeFailure>)
    requires Valid(e)
    ensures r == MergeSideTables(c, e)
  {
    var vjIdxToId := IdxToId(e.vehicle_journeys, JourneyKey);
    var cIdxToId := IdxToId(e.comments, EntityKey);
    NewIdxMapInjective(e.vehicle_journeys, c.vehicle_journeys, JourneyKey);
    var vjMap := NewIdxMap(vjIdxToId, c.vehicle_journeys, JourneyKey);
    var cMap := NewIdxMap(cIdxToId, c.comments, EntityKey);
    var stop_time_headsigns := c.stop_time_headsigns + RekeyedByJourney(e.stop_time_headsigns, vjMap);
    var stop_time_ids := c.stop_time_ids + RekeyedByJourney(e.stop_time_ids, vjMap);
    var newComments := RekeyComments(e.stop_time_comments, vjMap, cMap);
    if newComments.None? {
      return Err(Panic(UnwrapNone));
    }
    return Ok(c.(stop_time_headsigns := stop_time_headsigns, stop_time_ids := stop_time_ids,
                 stop_time_comments := c.stop_time_comments + newComments.value));
  }

  /** `try_merge_collections`: the accumulator `c` absorbs the incoming `e`. */
  method TryMergeCollections(c: Collections, e: Collections) returns (r: Result<Collections, MergeFailure>)
    requires Valid(c) && Valid(e)
    ensures r == Merged(c, e)
  {
    var objects :- MergeObjectsInto(c, e);
    var stops :- MergeStopsInto(objects, e);
    var tables :- MergeSideTablesInto(stops, e);
    return MergeRest(tables, e);
  }

  // ----- properties of the merge -----

  /** A handle of an incoming collection, once its records (or records with the same ids)
    * are appended to the accumulator, resolves to its own position shifted by the size of
    * the accumulator; a handle past the end resolves to nothing. */
  lemma NewIdxAppended<T>(i: Idx, acc: seq<T>, incoming: seq<T>, appended: seq<T>, key: T -> string)
    requires |appended| == |incoming| && forall j :: 0 <= j < |incoming| ==> key(appended[j]) == key(incoming[j])
    requires UniqueIds(acc + appended, key)
    ensures i < |incoming| ==> GetNewIdx(i, IdxToId(incoming, key), acc + appended, key) == Some(|acc| + i)
    ensures i >= |incoming| ==> GetNewIdx(i, IdxToId(incoming, key), acc + appended, key).None?
  {
    if i < |incoming| {
      GetIdxOfMember(acc + appended, key, |acc| + i);
      assert (acc + appended)[|acc| + i] == appended[i];
    }
  }

  /** What the stop stage appends: the incoming comments, the incoming stops with their
    * comment links translated, the incoming journeys with their stop times re-pointed. */
  lemma MergeStopsContents(c: Collections, e: Collections)
    requires Valid(c) && Valid(e) && MergeStops(c, e).Ok?
    ensures var v := MergeStops(c, e).value;
      && v.comments == c.comments + e.comments
      && v.stop_points == c.stop_points + AllWithTranslatedLinks(e.stop_points, IdxToId(e.comments, EntityKey), v.comments)
      && v.stop_areas == c.stop_areas + AllWithTranslatedLinks(e.stop_areas, IdxToId(e.comments, EntityKey), v.comments)
      && v.vehicle_journeys == c.vehicle_journeys + AllRemapped(e.vehicle_journeys, IdxToId(e.stop_points, StopKey), v.stop_points)
  {
  }

  /** The merged collections, field by field: strict collections and collections without
    * ids are the two sides one after the other, commercial modes, pathways and levels keep
    * the first record of each id, physical modes combine their CO2 values. */
  lemma MergedContents(c: Collections, e: Collections)
    requires Valid(c) && Valid(e) && Merged(c, e).Ok?
    ensures var v := Merged(c, e).value;
      && v.contributors == c.contributors + e.contributors && v.datasets == c.datasets + e.datasets
      && v.networks == c.networks + e.networks && v.lines == c.lines + e.lines && v.routes == c.routes + e.routes
      && v.tickets == c.tickets + e.tickets && v.ticket_uses == c.ticket_uses + e.ticket_uses
      && v.grid_calendars == c.grid_calendars + e.grid_calendars
      && v.calendars == c.calendars + e.calendars && v.companies == c.companies + e.companies
      && v.equipments == c.equipments + e.equipments && v.trip_properties == c.trip_properties + e.trip_properties
      && v.geometries == c.geometries + e.geometries && v.comments == c.comments + e.comments
      && v.commercial_modes == MergeWithId(c.commercial_modes, EntityKey, e.commercial_modes)
      && v.pathways == MergeWithId(c.pathways, EntityKey, e.pathways)
      && v.levels == MergeWithId(c.levels, EntityKey, e.levels)
      && v.physical_modes == Upsert.UpsertAll(c.physical_modes, ModeKey, CombineModes, e.physical_modes)
      && v.frequencies == c.frequencies + e.frequencies && v.transfers == c.transfers + e.transfers
      && v.admin_stations == c.admin_stations + e.admin_stations
      && v.prices_v1 == c.prices_v1 + e.prices_v1 && v.od_fares_v1 == c.od_fares_v1 + e.od_fares_v1
      && v.fares_v1 == c.fares_v1 + e.fares_v1 && v.ticket_prices == c.ticket_prices + e.ticket_prices
      && v.ticket_use_perimeters == c.ticket_use_perimeters + e.ticket_use_perimeters
      && v.ticket_use_restrictions == c.ticket_use_restrictions + e.ticket_use_restrictions
      && v.grid_exception_dates == c.grid_exception_dates + e.grid_exception_dates
      && v.grid_periods == c.grid_periods + e.grid_periods
      && v.grid_rel_calendar_line == c.grid_rel_calendar_line + e.grid_rel_calendar_line
  {
    var objects := MergeObjects(c, e).value;
    MergeStopsContents(objects, e);
  }

  /** With handle maps defined exactly on the first `n` journeys and the first `m`
    * comments, the re-keying fails exactly on an entry outside those bounds. */
  lemma RekeyedCommentsNone(table: map<StopTimeKey, Idx>, vjMap: map<Idx, Idx>, cMap: map<Idx, Idx>, n: nat, m: nat)
    requires Injective(vjMap)
    requires forall i: Idx :: i in vjMap <==> i < n
    requires forall i: Idx :: i in cMap <==> i < m
    ensures RekeyedComments(table, vjMap, cMap).None? <==> exists k :: k in table && (k.0 >= n || table[k] >= m)
  {
  }

  /** The side-table stage, on collections that end with the incoming journeys (or journeys
    * with the same ids) and the incoming comments, panics exactly when an incoming stop-time
    * comment designates a journey or a comment the incoming side does not have. */
  lemma SideTablesOkAppended(v: Collections, e: Collections, accVjs: seq<VehicleJourney>, vjs: seq<VehicleJourney>, accComments: seq<Entity>)
    requires Valid(e)
    requires v.vehicle_journeys == accVjs + vjs && UniqueIds(v.vehicle_journeys, JourneyKey)
    requires |vjs| == |e.vehicle_journeys| && forall j :: 0 <= j < |vjs| ==> vjs[j].id == e.vehicle_journeys[j].id
    requires v.comments == accComments + e.comments && UniqueIds(v.comments, EntityKey)
    ensures MergeSideTables(v, e).Ok? <==> CommentsResolvable(e)
  {
    NewIdxMapInjective(e.vehicle_journeys, v.vehicle_journeys, JourneyKey);
    var vjMap := NewIdxMap(IdxToId(e.vehicle_journeys, JourneyKey), v.vehicle_journeys, JourneyKey);
    var cMap := NewIdxMap(IdxToId(e.comments, EntityKey), v.comments, EntityKey);
    forall i: Idx ensures (i in vjMap <==> i < |e.vehicle_journeys|) && (i in cMap <==> i < |e.comments|) {
      NewIdxAppended(i, accVjs, e.vehicle_journeys, vjs, JourneyKey);
      NewIdxAppended(i, accComments, e.comments, e.comments, EntityKey);
      assert i in vjMap <==> GetNewIdx(i, IdxToId(e.vehicle_journeys, JourneyKey), v.vehicle_journeys, JourneyKey).Some?;
      assert i in cMap <==> GetNewIdx(i, IdxToId(e.comments, EntityKey), v.comments, EntityKey).Some?;
    }
    RekeyedCommentsNone(e.stop_time_comments, vjMap, cMap, |e.vehicle_journeys|, |e.comments|);
  }

  /** After the stop stage, the side-table stage panics exactly when an incoming stop-time
    * comment does not resolve. */
  lemma SideTablesOk(c: Collections, e: Collections)
    requires Valid(c) && Valid(e) && MergeStops(c, e).Ok?
    ensures MergeSideTables(MergeStops(c, e).value, e).Ok? <==> CommentsResolvable(e)
  {
    var v := MergeStops(c, e).value;
    MergeStopsContents(c, e);
    SideTablesOkAppended(v, e, c.vehicle_journeys, AllRemapped(e.vehicle_journeys, IdxToId(e.stop_points, StopKey), v.stop_points), c.comments);
  }

  /** The merge succeeds exactly when no strict collection has an id on both sides and every
    * incoming stop-time comment designates an incoming journey and an incoming comment. */
  lemma MergedOk(c: Collections, e: Collections)
    requires Valid(c) && Valid(e)
    ensures Merged(c, e).Ok? <==>
      ObjectsDisjoint(c, e) && StopsDisjoint(c, e) && CommentsResolvable(e) && LateDisjoint(c, e)
  {
    if ObjectsDisjoint(c, e) {
      var objects := MergeObjects(c, e).value;
      if StopsDisjoint(c, e) {
        SideTablesOk(objects, e);
      }
    }
  }

  /** The merge panics exactly when the strict collections before line 204 merge and an
    * incoming stop-time comment does not resolve. */
  lemma MergedPanics(c: Collections, e: Collections)
    requires Valid(c) && Valid(e)
    ensures Merged(c, e).Err? && Merged(c, e).error.Panic? <==>
      ObjectsDisjoint(c, e) && StopsDisjoint(c, e) && !CommentsResolvable(e)
  {
    if ObjectsDisjoint(c, e) {
      var objects := MergeObjects(c, e).value;
      if StopsDisjoint(c, e) {
        SideTablesOk(objects, e);
      }
    }
  }

  /** Every failure that is not that panic is the refusal of a duplicate id. */
  lemma MergedErrors(c: Collections, e: Collections)
    requires Valid(c) && Valid(e)
    ensures Merged(c, e).Err? && Merged(c, e).error.Error? ==>
      exists id :: Merged(c, e).error.message == DuplicateMessage(id)
  {
  }

  /** Where the merge puts the positional data of the incoming side: comments, stops and
    * journeys are appended after those of `c`, and the side tables are extended by the
    * re-keyed incoming ones. */
  ghost predicate Placed(c: Collections, e: Collections, v: Collections)
    requires Valid(e)
  {
    PlacedRecords(c, e, v) && PlacedTables(c, e, v)
  }

  /** The records: comments, stops and journeys. */
  ghost predicate PlacedRecords(c: Collections, e: Collections, v: Collections)
  {
    && v.comments == c.comments + e.comments
    && v.stop_points == c.stop_points + AllWithTranslatedLinks(e.stop_points, IdxToId(e.comments, EntityKey), v.comments)
    && v.stop_areas == c.stop_areas + AllWithTranslatedLinks(e.stop_areas, IdxToId(e.comments, EntityKey), v.comments)
    && v.vehicle_journeys == c.vehicle_journeys + AllRemapped(e.vehicle_journeys, IdxToId(e.stop_points, StopKey), v.stop_points)
    && UniqueIds(v.vehicle_journeys, JourneyKey) && UniqueIds(v.comments, EntityKey)
    && UniqueIds(v.stop_points, StopKey) && UniqueIds(v.stop_areas, StopKey)
  }

  /** The side tables. */
  ghost predicate PlacedTables(c: Collections, e: Collections, v: Collections)
    requires Valid(e)
  {
    && Injective(NewIdxMap(IdxToId(e.vehicle_journeys, JourneyKey), v.vehicle_journeys, JourneyKey))
    && v.stop_time_headsigns == c.stop_time_headsigns
         + RekeyedByJourney(e.stop_time_headsigns, NewIdxMap(IdxToId(e.vehicle_journeys, JourneyKey), v.vehicle_journeys, JourneyKey))
    && v.stop_time_ids == c.stop_time_ids
         + RekeyedByJourney(e.stop_time_ids, NewIdxMap(IdxToId(e.vehicle_journeys, JourneyKey), v.vehicle_journeys, JourneyKey))
    && RekeyedComments(e.stop_time_comments, NewIdxMap(IdxToId(e.vehicle_journeys, JourneyKey), v.vehicle_journeys, JourneyKey),
                       NewIdxMap(IdxToId(e.comments, EntityKey), v.comments, EntityKey)).Some?
    && v.stop_time_comments == c.stop_time_comments
         + RekeyedComments(e.stop_time_comments, NewIdxMap(IdxToId(e.vehicle_journeys, JourneyKey), v.vehicle_journeys, JourneyKey),
                           NewIdxMap(IdxToId(e.comments, EntityKey), v.comments, EntityKey)).value
  }

  lemma MergedPlaced(c: Collections, e: Collections)
    requires Valid(c) && Valid(e) && Merged(c, e).Ok?
    ensures Placed(c, e, Merged(c, e).value)
  {
    var objects := MergeObjects(c, e).value;
    var stops := MergeStops(objects, e).value;
    MergeStopsContents(objects, e);
    NewIdxMapInjective(e.vehicle_journeys, stops.vehicle_journeys, JourneyKey);
  }

  /** A stop time re-pointed against stop points that end with the incoming ones (or stop
    * points with the same ids). */
  lemma AppendedStopTime(st: StopTime, acc: seq<Stop>, incoming: seq<Stop>, appended: seq<Stop>)
    requires |appended| == |incoming| && forall j :: 0 <= j < |incoming| ==> appended[j].id == incoming[j].id
    requires UniqueIds(acc + appended, StopKey)
    ensures var r := RemappedStopTime(st, IdxToId(incoming, StopKey), acc + appended);
      && r.sequence == st.sequence
      && (st.stop_point_idx < |incoming| ==>
            r.stop_point_idx == |acc| + st.stop_point_idx && (acc + appended)[r.stop_point_idx].id == incoming[st.stop_point_idx].id)
      && (st.stop_point_idx >= |incoming| ==> r == st)
  {
    NewIdxAppended(st.stop_point_idx, acc, incoming, appended, StopKey);
    if st.stop_point_idx < |incoming| {
      assert (acc + appended)[|acc| + st.stop_point_idx] == appended[st.stop_point_idx];
    }
  }

  lemma PlacedStopTime(c: Collections, e: Collections, v: Collections, i: nat, j: nat)
    requires PlacedRecords(c, e, v)
    requires i < |e.vehicle_journeys| && j < |e.vehicle_journeys[i].stop_times|
    ensures var st := e.vehicle_journeys[i].stop_times[j];
      && |v.vehicle_journeys| == |c.vehicle_journeys| + |e.vehicle_journeys|
      && |v.stop_points| == |c.stop_points| + |e.stop_points|
      && v.vehicle_journeys[|c.vehicle_journeys| + i].id == e.vehicle_journeys[i].id
      && |v.vehicle_journeys[|c.vehicle_journeys| + i].stop_times| == |e.vehicle_journeys[i].stop_times|
      && var r := v.vehicle_journeys[|c.vehicle_journeys| + i].stop_times[j];
      && r.sequence == st.sequence
      && (st.stop_point_idx < |e.stop_points| ==>
            r.stop_point_idx == |c.stop_points| + st.stop_point_idx
            && v.stop_points[r.stop_point_idx].id == e.stop_points[st.stop_point_idx].id)
      && (st.stop_point_idx >= |e.stop_points| ==> r == st)
  {
    var stops := AllWithTranslatedLinks(e.stop_points, IdxToId(e.comments, EntityKey), v.comments);
    AppendedStopTime(e.vehicle_journeys[i].stop_times[j], c.stop_points, e.stop_points, stops);
    assert v.vehicle_journeys[|c.vehicle_journeys| + i] == RemappedJourney(e.vehicle_journeys[i], IdxToId(e.stop_points, StopKey), v.stop_points);
  }

  /** A stop time of the `i`-th incoming journey, after the merge: its sequence is kept, a
    * stop point of the incoming side is designated by its position shifted past the stop
    * points of `c` (the same stop point, by id), and a dangling handle is left as it was. */
  lemma MergedStopTime(c: Collections, e: Collections, i: nat, j: nat)
    requires Valid(c) && Valid(e) && Merged(c, e).Ok?
    requires i < |e.vehicle_journeys| && j < |e.vehicle_journeys[i].stop_times|
    ensures var v := Merged(c, e).value;
      var st := e.vehicle_journeys[i].stop_times[j];
      && |v.vehicle_journeys| == |c.vehicle_journeys| + |e.vehicle_journeys|
      && |v.stop_points| == |c.stop_points| + |e.stop_points|
      && v.vehicle_journeys[|c.vehicle_journeys| + i].id == e.vehicle_journeys[i].id
      && |v.vehicle_journeys[|c.vehicle_journeys| + i].stop_times| == |e.vehicle_journeys[i].stop_times|
      && var r := v.vehicle_journeys[|c.vehicle_journeys| + i].stop_times[j];
      && r.sequence == st.sequence
      && (st.stop_point_idx < |e.stop_points| ==>
            r.stop_point_idx == |c.stop_points| + st.stop_point_idx
            && v.stop_points[r.stop_point_idx].id == e.stop_points[st.stop_point_idx].id)
      && (st.stop_point_idx >= |e.stop_points| ==> r == st)
  {
    MergedPlaced(c, e);
    PlacedStopTime(c, e, Merged(c, e).value, i, j);
  }

  lemma PlacedCommentLinks(c: Collections, e: Collections, v: Collections, i: nat)
    requires PlacedRecords(c, e, v)
    requires i < |e.stop_points|
    ensures && |v.stop_points| == |c.stop_points| + |e.stop_points|
      && v.stop_points[|c.stop_points| + i] == e.stop_points[i].(comment_links :=
           set l | l in e.stop_points[i].comment_links && l < |e.comments| :: |c.comments| + l)
  {
    var cIdxToId := IdxToId(e.comments, EntityKey);
    var links := e.stop_points[i].comment_links;
    var expected := set l | l in links && l < |e.comments| :: |c.comments| + l;
    var got := TranslatedLinks(links, cIdxToId, v.comments);
    forall l | l in links ensures
      (l < |e.comments| ==> GetNewIdx(l, cIdxToId, v.comments, EntityKey) == Some(|c.comments| + l))
      && (l >= |e.comments| ==> GetNewIdx(l, cIdxToId, v.comments, EntityKey).None?)
    {
      NewIdxAppended(l, c.comments, e.comments, e.comments, EntityKey);
    }
    assert got == expected;
    assert v.stop_points[|c.stop_points| + i] == WithTranslatedLinks(e.stop_points[i], cIdxToId, v.comments);
  }

  /** The comment links of the `i`-th incoming stop point, after the merge: every link to an
    * incoming comment is shifted past the comments of `c`; dangling links are dropped. */
  lemma MergedCommentLinks(c: Collections, e: Collections, i: nat)
    requires Valid(c) && Valid(e) && Merged(c, e).Ok?
    requires i < |e.stop_points|
    ensures var v := Merged(c, e).value;
      && |v.stop_points| == |c.stop_points| + |e.stop_points|
      && v.stop_points[|c.stop_points| + i] == e.stop_points[i].(comment_links :=
           set l | l in e.stop_points[i].comment_links && l < |e.comments| :: |c.comments| + l)
  {
    MergedPlaced(c, e);
    PlacedCommentLinks(c, e, Merged(c, e).value, i);
  }

  /** With a journey map that shifts the first `n` handles by `offset`, an entry of the
    * table lands at the shifted key ... */
  lemma RekeyedAt<V>(table: map<StopTimeKey, V>, vjMap: map<Idx, Idx>, n: nat, offset: nat, k: StopTimeKey)
    requires Injective(vjMap)
    requires forall i: Idx :: i in vjMap <==> i < n
    requires forall i :: i in vjMap ==> vjMap[i] == offset + i
    requires k in table && k.0 < n
    ensures (k.0 + offset, k.1) in RekeyedByJourney(table, vjMap)
    ensures RekeyedByJourney(table, vjMap)[(k.0 + offset, k.1)] == table[k]
  {
    assert vjMap[k.0] == k.0 + offset;
  }

  /** ... and every entry of the re-keyed table comes from one. */
  lemma RekeyedFrom<V>(table: map<StopTimeKey, V>, vjMap: map<Idx, Idx>, offset: nat, q: StopTimeKey)
    requires Injective(vjMap)
    requires forall i :: i in vjMap ==> vjMap[i] == offset + i
    requires q in RekeyedByJourney(table, vjMap)
    ensures q.0 >= offset && (q.0 - offset, q.1) in table
    ensures RekeyedByJourney(table, vjMap)[q] == table[(q.0 - offset, q.1)]
  {
    var k :| k in table && k.0 in vjMap && q == (vjMap[k.0], k.1);
    assert k == (q.0 - offset, q.1);
  }

  lemma RekeyedCommentAt(table: map<StopTimeKey, Idx>, vjMap: map<Idx, Idx>, cMap: map<Idx, Idx>,
                         offset: nat, commentOffset: nat, k: StopTimeKey)
    requires Injective(vjMap)
    requires forall i :: i in vjMap ==> vjMap[i] == offset + i
    requires forall i :: i in cMap ==> cMap[i] == commentOffset + i
    requires k in table && k.0 in vjMap && table[k] in cMap
    ensures (k.0 + offset, k.1) in RekeyedPart(table, table.Keys, vjMap, cMap)
    ensures RekeyedPart(table, table.Keys, vjMap, cMap)[(k.0 + offset, k.1)] == table[k] + commentOffset
  {
    assert vjMap[k.0] == k.0 + offset;
  }

  lemma RekeyedCommentFrom(table: map<StopTimeKey, Idx>, vjMap: map<Idx, Idx>, cMap: map<Idx, Idx>,
                           offset: nat, commentOffset: nat, q: StopTimeKey)
    requires Injective(vjMap)
    requires forall i :: i in vjMap ==> vjMap[i] == offset + i
    requires forall i :: i in cMap ==> cMap[i] == commentOffset + i
    requires q in RekeyedPart(table, table.Keys, vjMap, cMap)
    ensures q.0 >= offset && (q.0 - offset, q.1) in table
    ensures RekeyedPart(table, table.Keys, vjMap, cMap)[q] == table[(q.0 - offset, q.1)] + commentOffset
  {
    var k :| k in table && k.0 in vjMap && table[k] in cMap && q == (vjMap[k.0], k.1);
    assert k == (q.0 - offset, q.1);
  }

  /** On collections that end with the incoming journeys and comments, the handle maps are
    * defined on the incoming handles and shift them past the accumulated records. */
  lemma HandleMapsShift(e: Collections, accVjs: seq<VehicleJourney>, vjs: seq<VehicleJourney>, accComments: seq<Entity>)
    requires |vjs| == |e.vehicle_journeys| && forall j :: 0 <= j < |vjs| ==> vjs[j].id == e.vehicle_journeys[j].id
    requires UniqueIds(accVjs + vjs, JourneyKey) && UniqueIds(accComments + e.comments, EntityKey)
    ensures var vjMap := NewIdxMap(IdxToId(e.vehicle_journeys, JourneyKey), accVjs + vjs, JourneyKey);
      && (forall i: Idx :: i in vjMap <==> i < |e.vehicle_journeys|)
      && (forall i :: i in vjMap ==> vjMap[i] == |accVjs| + i)
    ensures var cMap := NewIdxMap(IdxToId(e.comments, EntityKey), accComments + e.comments, EntityKey);
      && (forall i: Idx :: i in cMap <==> i < |e.comments|)
      && (forall i :: i in cMap ==> cMap[i] == |accComments| + i)
  {
    var vjMap := NewIdxMap(IdxToId(e.vehicle_journeys, JourneyKey), accVjs + vjs, JourneyKey);
    var cMap := NewIdxMap(IdxToId(e.comments, EntityKey), accComments + e.comments, EntityKey);
    forall i: Idx ensures (i in vjMap <==> i < |e.vehicle_journeys|) && (i in vjMap ==> vjMap[i] == |accVjs| + i) {
      NewIdxAppended(i, accVjs, e.vehicle_journeys, vjs, JourneyKey);
    }
    forall i: Idx ensures (i in cMap <==> i < |e.comments|) && (i in cMap ==> cMap[i] == |accComments| + i) {
      NewIdxAppended(i, accComments, e.comments, e.comments, EntityKey);
    }
  }

  /** The handle maps against `v` are defined on the incoming journeys and comments and
    * shift them by `nv` and `nc`. */
  ghost predicate Shifts(e: Collections, v: Collections, nv: nat, nc: nat)
  {
    var vjMap := NewIdxMap(IdxToId(e.vehicle_journeys, JourneyKey), v.vehicle_journeys, JourneyKey);
    var cMap := NewIdxMap(IdxToId(e.comments, EntityKey), v.comments, EntityKey);
    && (forall i: Idx :: i in vjMap <==> i < |e.vehicle_journeys|)
    && (forall i :: i in vjMap ==> vjMap[i] == nv + i)
    && (forall i: Idx :: i in cMap <==> i < |e.comments|)
    && (forall i :: i in cMap ==> cMap[i] == nc + i)
  }

  lemma PlacedShift(c: Collections, e: Collections, v: Collections)
    requires Valid(e) && Placed(c, e, v)
    ensures Shifts(e, v, |c.vehicle_journeys|, |c.comments|)
  {
    HandleMapsShift(e, c.vehicle_journeys, AllRemapped(e.vehicle_journeys, IdxToId(e.stop_points, StopKey), v.stop_points), c.comments);
  }

  /** What a merged side table `r` holds at key `k`, for the table `acc` of the accumulator
    * (over `n` journeys) and the table `incoming` of the incoming side (over `m` journeys):
    * an incoming entry on an existing journey sits at the journey handle shifted by `n`; an
    * entry of `acc` on one of its own journeys is never overwritten; every entry of `r`
    * comes from one side or the other. */
  ghost predicate TableEntry<V>(acc: map<StopTimeKey, V>, incoming: map<StopTimeKey, V>, r: map<StopTimeKey, V>,
                                n: nat, m: nat, k: StopTimeKey)
  {
    && (k in incoming && k.0 < m ==> (k.0 + n, k.1) in r && r[(k.0 + n, k.1)] == incoming[k])
    && (k in acc && k.0 < n ==> k in r && r[k] == acc[k])
    && (k in r ==>
          (k in acc && r[k] == acc[k])
          || (k.0 >= n && (k.0 - n, k.1) in incoming && r[k] == incoming[(k.0 - n, k.1)]))
  }

  /** The same for the stop-time comments, whose comment handles are shifted by `nc`. */
  ghost predicate CommentEntry(acc: map<StopTimeKey, Idx>, incoming: map<StopTimeKey, Idx>, r: map<StopTimeKey, Idx>,
                               n: nat, nc: nat, k: StopTimeKey)
  {
    && (k in incoming ==> (k.0 + n, k.1) in r && r[(k.0 + n, k.1)] == incoming[k] + nc)
    && (k in acc && k.0 < n ==> k in r && r[k] == acc[k])
    && (k in r ==>
          (k in acc && r[k] == acc[k])
          || (k.0 >= n && (k.0 - n, k.1) in incoming && r[k] == incoming[(k.0 - n, k.1)] + nc))
  }

  lemma ExtendedByRekeyed<V>(acc: map<StopTimeKey, V>, table: map<StopTimeKey, V>, vjMap: map<Idx, Idx>, n: nat, offset: nat, k: StopTimeKey)
    requires Injective(vjMap)
    requires forall i: Idx :: i in vjMap <==> i < n
    requires forall i :: i in vjMap ==> vjMap[i] == offset + i
    ensures TableEntry(acc, table, acc + RekeyedByJourney(table, vjMap), offset, n, k)
  {
    var rk := RekeyedByJourney(table, vjMap);
    if k in table && k.0 < n {
      RekeyedAt(table, vjMap, n, offset, k);
    }
    if k in rk {
      RekeyedFrom(table, vjMap, offset, k);
    }
  }

  lemma ExtendedByComments(acc: map<StopTimeKey, Idx>, table: map<StopTimeKey, Idx>, vjMap: map<Idx, Idx>, cMap: map<Idx, Idx>,
                           offset: nat, commentOffset: nat, k: StopTimeKey)
    requires Injective(vjMap)
    requires forall i :: i in vjMap ==> vjMap[i] == offset + i
    requires forall i :: i in cMap ==> cMap[i] == commentOffset + i
    requires RekeyedComments(table, vjMap, cMap).Some?
    ensures CommentEntry(acc, table, acc + RekeyedComments(table, vjMap, cMap).value, offset, commentOffset, k)
  {
    var rk := RekeyedPart(table, table.Keys, vjMap, cMap);
    if k in table {
      RekeyedCommentAt(table, vjMap, cMap, offset, commentOffset, k);
    }
    if k in rk {
      RekeyedCommentFrom(table, vjMap, cMap, offset, commentOffset, k);
    }
  }

  /** One key of the three merged side tables. */
  ghost predicate SideTableEntry(c: Collections, e: Collections, v: Collections, k: StopTimeKey)
  {
    && TableEntry(c.stop_time_headsigns, e.stop_time_headsigns, v.stop_time_headsigns, |c.vehicle_journeys|, |e.vehicle_journeys|, k)
    && TableEntry(c.stop_time_ids, e.stop_time_ids, v.stop_time_ids, |c.vehicle_journeys|, |e.vehicle_journeys|, k)
    && CommentEntry(c.stop_time_comments, e.stop_time_comments, v.stop_time_comments, |c.vehicle_journeys|, |c.comments|, k)
  }

  lemma PlacedEntry(c: Collections, e: Collections, v: Collections, k: StopTimeKey)
    requires Valid(e) && PlacedTables(c, e, v) && Shifts(e, v, |c.vehicle_journeys|, |c.comments|)
    ensures SideTableEntry(c, e, v, k)
  {
    var vjMap := NewIdxMap(IdxToId(e.vehicle_journeys, JourneyKey), v.vehicle_journeys, JourneyKey);
    var cMap := NewIdxMap(IdxToId(e.comments, EntityKey), v.comments, EntityKey);
    ExtendedByRekeyed(c.stop_time_headsigns, e.stop_time_headsigns, vjMap, |e.vehicle_journeys|, |c.vehicle_journeys|, k);
    ExtendedByRekeyed(c.stop_time_ids, e.stop_time_ids, vjMap, |e.vehicle_journeys|, |c.vehicle_journeys|, k);
    ExtendedByComments(c.stop_time_comments, e.stop_time_comments, vjMap, cMap, |c.vehicle_journeys|, |c.comments|, k);
  }

  /** One key of the merged side tables: an incoming entry (on an incoming journey, for the
    * headsigns and ids) sits at its journey handle shifted past the journeys of `c`, a
    * stop-time comment designates its comment shifted past the comments of `c`, an entry of
    * `c` on one of its own journeys is never overwritten, and every merged entry comes from
    * `c` or, shifted, from the incoming side. */
  lemma MergedEntry(c: Collections, e: Collections, k: StopTimeKey)
    requires Valid(c) && Valid(e) && Merged(c, e).Ok?
    ensures SideTableEntry(c, e, Merged(c, e).value, k)
  {
    MergedPlaced(c, e);
    PlacedShift(c, e, Merged(c, e).value);
    PlacedEntry(c, e, Merged(c, e).value, k);
  }

  /** Merging a dataset that has a contributor with itself fails on the first contributor,
    * the first collection merged (line 70). */
  lemma MergedWithItself(c: Collections)
    requires Valid(c) && |c.contributors| > 0
    ensures Merged(c, c) == Err(Error(DuplicateMessage(c.contributors[0].id)))
  {
    assert c.contributors[0].id in IdSet(c.contributors, EntityKey);
    assert TryMerge(c.contributors, EntityKey, c.contributors) == Err(DuplicateMessage(c.contributors[0].id));
  }
}
