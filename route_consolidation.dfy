/** Route consolidation of apply-rules (apply-rules/src/apply_rules/route_consolidation.rs).
  * A rule names a line, or a network standing for all of its lines. On each such line the
  * routes that have a direction are grouped by direction; each group is merged into the
  * route `<line>-<direction>`, found or created: the group's vehicle journeys move to it, it
  * gains the group's codes and its object properties, first value per key winning, and the
  * group's routes are deleted. */
module RouteConsolidation {
  import opened Wrappers
  import opened IdCollection
  import Upsert
  import Report
  import opened RuleReport
  import opened Ordering

  /** A set of `(key, value)` pairs; iterating it yields the pairs in ascending order. */
  type KeysValues = set<(string, string)>

  datatype ObjectType = LineObject | NetworkObject

  /** One row of the consolidation file: the line or network to consolidate. */
  datatype RouteConsolidationConfiguration = RouteConsolidationConfiguration(object_type: ObjectType, object_id: string)

  datatype Route = Route(id: string, name: string, line_id: string, direction_type: Option<string>,
                         codes: KeysValues, object_properties: KeysValues)

  datatype Line = Line(id: string, network_id: string)

  datatype Network = Network(id: string)

  datatype VehicleJourney = VehicleJourney(id: string, route_id: string)

  /** The collections route consolidation reads and changes. */
  datatype Collections = Collections(networks: seq<Network>, lines: seq<Line>, routes: seq<Route>,
                                     vehicle_journeys: seq<VehicleJourney>)

  function RouteKey(r: Route): string { r.id }
  function LineKey(l: Line): string { l.id }
  function NetworkKey(n: Network): string { n.id }

  /** How a rule prints in messages: `line:<id>` or `network:<id>`. */
  function Display(rc: RouteConsolidationConfiguration): string
  {
    (match rc.object_type case LineObject => "line" case NetworkObject => "network") + ":" + rc.object_id
  }

  /** The id of the route a direction of a line is consolidated into. */
  function GenerateRouteId(line_id: string, direction_type: string): (id: string)
    ensures |id| == |line_id| + 1 + |direction_type|
    ensures id[..|line_id|] == line_id && id[|line_id|] == '-' && id[|line_id| + 1..] == direction_type
  {
    line_id + "-" + direction_type
  }

  // ----- grouping a line's routes by direction -----

  /** A route of `line_id` with a direction, other than the route that direction is
    * consolidated into. */
  predicate ToRegroup(r: Route, line_id: string)
  {
    r.line_id == line_id && r.direction_type.Some? && r.id != GenerateRouteId(line_id, r.direction_type.value)
  }

  /** The routes to regroup in direction `dt` of `line_id`. */
  function InDirection(line_id: string, dt: string): Route -> bool
  {
    r => ToRegroup(r, line_id) && r.direction_type.value == dt
  }

  function Ids(routes: seq<Route>): (ids: seq<string>)
    ensures |ids| == |routes| && forall i :: 0 <= i < |routes| ==> ids[i] == routes[i].id
  {
    seq(|routes|, i requires 0 <= i < |routes| => routes[i].id)
  }

  /** `get_routes_by_direction`: the fold over the routes, in collection order, that files
    * each route to regroup under its direction. */
  function RoutesByDirection(routes: seq<Route>, line_id: string): map<string, seq<string>>
    decreases |routes|
  {
    if routes == [] then map[]
    else
      var m := RoutesByDirection(routes[..|routes| - 1], line_id);
      var r := routes[|routes| - 1];
      if ToRegroup(r, line_id) then
        var dt := r.direction_type.value;
        m[dt := (if dt in m then m[dt] else []) + [r.id]]
      else m
  }

  lemma {:induction false} RetainNone<T>(s: seq<T>, keep: T -> bool)
    requires forall i :: 0 <= i < |s| ==> !keep(s[i])
    ensures Retain(s, keep) == []
  {
    if s != [] {
      RetainNone(s[1..], keep);
    }
  }

  lemma IdsSnoc(s: seq<Route>, r: Route)
    ensures Ids(s + [r]) == Ids(s) + [r.id]
  {
  }

  /** The directions are exactly those of the routes to regroup. */
  lemma {:induction false} RoutesByDirectionKeys(routes: seq<Route>, line_id: string)
    ensures forall dt :: dt in RoutesByDirection(routes, line_id) <==>
      exists i :: 0 <= i < |routes| && InDirection(line_id, dt)(routes[i])
    decreases |routes|
  {
    var m := RoutesByDirection(routes, line_id);
    if routes != [] {
      var front := routes[..|routes| - 1];
      RoutesByDirectionKeys(front, line_id);
      var m0 := RoutesByDirection(front, line_id);
      forall dt
        ensures dt in m <==> exists i :: 0 <= i < |routes| && InDirection(line_id, dt)(routes[i])
      {
        if dt in m0 {
          var i :| 0 <= i < |front| && InDirection(line_id, dt)(front[i]);
          assert routes[i] == front[i];
        }
        if exists i :: 0 <= i < |routes| && InDirection(line_id, dt)(routes[i]) {
          var i :| 0 <= i < |routes| && InDirection(line_id, dt)(routes[i]);
          if i < |front| {
            assert front[i] == routes[i];
          }
        }
      }
    }
  }

  /** Each direction lists the ids of its routes to regroup, in collection order. */
  lemma {:induction false} RoutesByDirectionIds(routes: seq<Route>, line_id: string, dt: string)
    requires dt in RoutesByDirection(routes, line_id)
    ensures RoutesByDirection(routes, line_id)[dt] == Ids(Retain(routes, InDirection(line_id, dt)))
    decreases |routes|
  {
    var front := routes[..|routes| - 1];
    var r := routes[|routes| - 1];
    assert routes == front + [r];
    var m0 := RoutesByDirection(front, line_id);
    Upsert.RetainSnoc(front, r, InDirection(line_id, dt));
    if dt in m0 {
      RoutesByDirectionIds(front, line_id, dt);
    } else {
      RoutesByDirectionKeys(front, line_id);
      RetainNone(front, InDirection(line_id, dt));
    }
    if InDirection(line_id, dt)(r) {
      IdsSnoc(Retain(front, InDirection(line_id, dt)), r);
    }
  }

  /** A direction's group never holds the route that direction is consolidated into. */
  lemma TargetNotRegrouped(routes: seq<Route>, line_id: string, dt: string)
    requires dt in RoutesByDirection(routes, line_id)
    ensures GenerateRouteId(line_id, dt) !in RoutesByDirection(routes, line_id)[dt]
  {
    RoutesByDirectionIds(routes, line_id, dt);
    var ids := RoutesByDirection(routes, line_id)[dt];
    var kept := Retain(routes, InDirection(line_id, dt));
    forall k | 0 <= k < |ids|
      ensures ids[k] != GenerateRouteId(line_id, dt)
    {
      assert ids[k] == kept[k].id && InDirection(line_id, dt)(kept[k]);
    }
  }

  // ----- the target route -----

  function ExistsInLine(id: string, line_id: string): string
  {
    "Route \"" + id + "\" already exists in line \"" + line_id + "\""
  }

  function ExistsInDirection(id: string, dt: string): string
  {
    "Route \"" + id + "\" already exists in direction \"" + dt + "\""
  }

  /** `get_route_id_target`: the id of the route `<line>-<direction>`, pushed first as an empty
    * route of that line and direction when absent; an existing route with that id must belong
    * to the line and have the same direction or none. */
  function RouteIdTarget(routes: seq<Route>, line_id: string, dt: string): Result<(seq<Route>, string), string>
  {
    var id := GenerateRouteId(line_id, dt);
    match GetIdx(routes, RouteKey, id)
    case None => Ok((routes + [Route(id, "", line_id, Some(dt), {}, {})], id))
    case Some(i) =>
      if routes[i].line_id != line_id then Err(ExistsInLine(routes[i].id, routes[i].line_id))
      else if routes[i].direction_type.Some? && routes[i].direction_type.value != dt then
        Err(ExistsInDirection(routes[i].id, routes[i].direction_type.value))
      else Ok((routes, id))
  }

  /** An existing route can serve as the target: it is on the line, in the direction or in
    * none. */
  predicate Usable(existing: Route, line_id: string, dt: string)
  {
    existing.line_id == line_id && (existing.direction_type.None? || existing.direction_type.value == dt)
  }

  /** The route carrying a target's id belongs to another line, or to the line in another
    * direction, and `message` says which. */
  predicate Conflict(existing: Route, line_id: string, dt: string, message: string)
  {
    (existing.line_id != line_id && message == ExistsInLine(existing.id, existing.line_id))
    || (existing.line_id == line_id && existing.direction_type.Some? && existing.direction_type.value != dt
        && message == ExistsInDirection(existing.id, existing.direction_type.value))
  }

  /** The target is usable exactly when no route carries its id, or the one that does is on
    * the line with the same direction or none; an absent target is created empty, a present
    * one is left as it is, and a refusal names the conflicting line or direction. */
  lemma RouteIdTargetSpec(routes: seq<Route>, line_id: string, dt: string)
    requires UniqueIds(routes, RouteKey)
    ensures var id := GenerateRouteId(line_id, dt);
      var r := RouteIdTarget(routes, line_id, dt);
      (r.Ok? <==> forall i :: 0 <= i < |routes| && routes[i].id == id ==> Usable(routes[i], line_id, dt))
      && (r.Ok? ==>
            r.value.1 == id && UniqueIds(r.value.0, RouteKey)
            && (id in IdSet(routes, RouteKey) ==> r.value.0 == routes)
            && (id !in IdSet(routes, RouteKey) ==> r.value.0 == routes + [Route(id, "", line_id, Some(dt), {}, {})]))
      && (r.Err? ==>
            exists i :: 0 <= i < |routes| && routes[i].id == id && Conflict(routes[i], line_id, dt, r.error))
  {
    var id := GenerateRouteId(line_id, dt);
    match GetIdx(routes, RouteKey, id)
    case None =>
      UniqueIdsSnoc(routes, RouteKey, Route(id, "", line_id, Some(dt), {}, {}));
    case Some(k) =>
      var e := routes[k];
      assert id in IdSet(routes, RouteKey);
      assert forall i :: 0 <= i < |routes| && routes[i].id == id ==> routes[i] == e;
      if Usable(e, line_id, dt) {
        assert RouteIdTarget(routes, line_id, dt) == Ok((routes, id));
      } else {
        assert Conflict(e, line_id, dt, RouteIdTarget(routes, line_id, dt).error);
      }
  }

  // ----- reattaching vehicle journeys -----

  /** The journeys of the regrouped routes moved to `target`. */
  function Reattached(vjs: seq<VehicleJourney>, ids: seq<string>, target: string): (r: seq<VehicleJourney>)
    ensures |r| == |vjs|
    ensures forall i :: 0 <= i < |vjs| ==> r[i] == vjs[i].(route_id := r[i].route_id)
    ensures forall i :: 0 <= i < |vjs| ==>
      (r[i].route_id == target <==> vjs[i].route_id == target || vjs[i].route_id in ids)
    ensures forall i :: 0 <= i < |vjs| && vjs[i].route_id !in ids ==> r[i] == vjs[i]
    ensures target !in ids ==> forall i :: 0 <= i < |vjs| ==> r[i].route_id !in ids
  {
    seq(|vjs|, i requires 0 <= i < |vjs| => if vjs[i].route_id in ids then vjs[i].(route_id := target) else vjs[i])
  }

  /** The positions of the journeys of the regrouped routes, in ascending order. */
  function MatchingIdx(vjs: seq<VehicleJourney>, ids: seq<string>): (r: seq<Idx>)
    ensures forall k, l :: 0 <= k < l < |r| ==> r[k] < r[l]
    ensures forall k :: 0 <= k < |r| ==> r[k] < |vjs|
    ensures forall i: nat :: i in r <==> i < |vjs| && vjs[i].route_id in ids
    decreases |vjs|
  {
    if vjs == [] then []
    else
      var front := MatchingIdx(vjs[..|vjs| - 1], ids);
      assert forall i :: i in front ==> i < |vjs| - 1;
      if vjs[|vjs| - 1].route_id in ids then front + [|vjs| - 1] else front
  }

  /** `reattach_vehicle_journeys`: collects the positions of the journeys to move, then sets
    * their route one position at a time. */
  method ReattachVehicleJourneys(vjs: seq<VehicleJourney>, ids: seq<string>, target: string)
    returns (r: seq<VehicleJourney>)
    ensures r == Reattached(vjs, ids, target)
  {
    var idxs := MatchingIdx(vjs, ids);
    r := vjs;
    for k := 0 to |idxs|
      invariant |r| == |vjs|
      invariant forall i :: 0 <= i < |vjs| ==> r[i] == if i in idxs[..k] then vjs[i].(route_id := target) else vjs[i]
    {
      var i := idxs[k];
      assert i !in idxs[..k];
      r := r[i := r[i].(route_id := target)];
      assert idxs[..k + 1] == idxs[..k] + [i];
    }
    assert idxs[..|idxs|] == idxs;
  }

  // ----- reattaching codes and object properties -----

  /** The route carrying `id`, if any. */
  function Find(routes: seq<Route>, id: string): Option<Route>
  {
    match GetIdx(routes, RouteKey, id)
    case None => None
    case Some(i) => Some(routes[i])
  }

  /** The codes a regrouped route hands over: its own and `("ntfs_source", <its id>)`. */
  function HandedCodes(r: Route): KeysValues
  {
    r.codes + {("ntfs_source", r.id)}
  }

  /** The codes gathered from the regrouped routes that exist. */
  function GatheredCodes(routes: seq<Route>, ids: seq<string>): KeysValues
    decreases |ids|
  {
    if ids == [] then {}
    else
      var front := GatheredCodes(routes, ids[..|ids| - 1]);
      match Find(routes, ids[|ids| - 1])
      case None => front
      case Some(r) => front + HandedCodes(r)
  }

  /** The object properties of the regrouped routes that exist, route after route, each
    * route's in ascending order. */
  function GatheredPairs(routes: seq<Route>, ids: seq<string>): seq<(string, string)>
    decreases |ids|
  {
    if ids == [] then []
    else
      var front := GatheredPairs(routes, ids[..|ids| - 1]);
      match Find(routes, ids[|ids| - 1])
      case None => front
      case Some(r) => PairOrder(); front + Ascending(r.object_properties, PairBelow)
  }

  /** `BTreeMap::from_iter`: each pair inserted in turn, so the last value of a key stays. */
  function FromIter(pairs: seq<(string, string)>): map<string, string>
    decreases |pairs|
  {
    if pairs == [] then map[]
    else FromIter(pairs[..|pairs| - 1])[pairs[|pairs| - 1].0 := pairs[|pairs| - 1].1]
  }

  function MultipleMessage(target: string, key: string, value: string): string
  {
    "Route '" + target + "' already has an object property for '" + key + "'; object property '"
      + key + ":" + value + "' will be ignored"
  }

  /** The properties loop: a pair is inserted when its key is new, and otherwise reported as
    * a `MultipleValue` warning. */
  function FirstWins(m: map<string, string>, pairs: seq<(string, string)>, target: string): (map<string, string>, seq<Row>)
    decreases |pairs|
  {
    if pairs == [] then (m, [])
    else
      var front := FirstWins(m, pairs[..|pairs| - 1], target);
      var p := pairs[|pairs| - 1];
      if p.0 !in front.0 then (front.0[p.0 := p.1], front.1)
      else (front.0, front.1 + [Report.ReportRow(MultipleValue, MultipleMessage(target, p.0, p.1))])
  }

  /** A map's entries as a set of pairs: what `clear` then `extend` leaves in a route. */
  function Entries(m: map<string, string>): KeysValues
  {
    set k | k in m :: (k, m[k])
  }

  /** A route's properties collected into a map, as the target's are. */
  function PropertiesMap(t: Route): map<string, string>
  {
    PairOrder();
    FromIter(Ascending(t.object_properties, PairBelow))
  }

  /** The target's properties before any regrouped route is read, by key. */
  function InitialProps(routes: seq<Route>, target: string): map<string, string>
  {
    match Find(routes, target)
    case None => map[]
    case Some(t) => PropertiesMap(t)
  }

  /** `reattach_codes_and_object_properties`: the routes afterwards and the warnings filed. */
  function ReattachedRoutes(routes: seq<Route>, ids: seq<string>, target: string): (seq<Route>, seq<Row>)
  {
    var fw := FirstWins(InitialProps(routes, target), GatheredPairs(routes, ids), target);
    match GetIdx(routes, RouteKey, target)
    case None => (routes, fw.1)
    case Some(i) =>
      (routes[i := routes[i].(codes := routes[i].codes + GatheredCodes(routes, ids), object_properties := Entries(fw.0))], fw.1)
  }

  /** `x` is among the codes the route carrying `id` hands over, if there is one. */
  predicate HandsOver(routes: seq<Route>, id: string, x: (string, string))
  {
    match Find(routes, id)
    case None => false
    case Some(r) => x in HandedCodes(r)
  }

  /** A code is gathered exactly when it is a code of a regrouped route that exists, or the
    * `ntfs_source` code naming one. */
  lemma {:induction false} GatheredCodesSpec(routes: seq<Route>, ids: seq<string>, x: (string, string))
    ensures x in GatheredCodes(routes, ids) <==> exists k :: 0 <= k < |ids| && HandsOver(routes, ids[k], x)
    decreases |ids|
  {
    if ids != [] {
      var front := ids[..|ids| - 1];
      GatheredCodesSpec(routes, front, x);
      assert forall k :: 0 <= k < |front| ==> front[k] == ids[k];
      assert x in GatheredCodes(routes, ids) <==> x in GatheredCodes(routes, front) || HandsOver(routes, ids[|ids| - 1], x);
    }
  }

  /** Pair `j` is the first of `pairs` with its key. */
  predicate FirstOfKey(pairs: seq<(string, string)>, j: nat)
    requires j < |pairs|
  {
    forall i :: 0 <= i < j ==> pairs[i].0 != pairs[j].0
  }

  /** After the loop, the keys are those present before and those of the pairs. */
  lemma {:induction false} FirstWinsKeys(m: map<string, string>, pairs: seq<(string, string)>, target: string, k: string)
    ensures k in FirstWins(m, pairs, target).0 <==> k in m || exists j :: 0 <= j < |pairs| && pairs[j].0 == k
    decreases |pairs|
  {
    if pairs != [] {
      var front := pairs[..|pairs| - 1];
      FirstWinsKeys(m, front, target, k);
      if exists j :: 0 <= j < |front| && front[j].0 == k {
        var j :| 0 <= j < |front| && front[j].0 == k;
        assert pairs[j] == front[j];
      }
      if exists j :: 0 <= j < |pairs| && pairs[j].0 == k {
        var j :| 0 <= j < |pairs| && pairs[j].0 == k;
        if j < |front| {
          assert front[j] == pairs[j];
        }
      }
    }
  }

  /** First wins: a key already present keeps its value, and any other key takes the value
    * of its first pair. */
  lemma {:induction false} FirstWinsValues(m: map<string, string>, pairs: seq<(string, string)>, target: string)
    ensures var r := FirstWins(m, pairs, target).0;
      (forall k :: k in m ==> k in r && r[k] == m[k])
      && (forall j :: 0 <= j < |pairs| && pairs[j].0 !in m && FirstOfKey(pairs, j) ==>
            pairs[j].0 in r && r[pairs[j].0] == pairs[j].1)
    decreases |pairs|
  {
    if pairs != [] {
      var front := pairs[..|pairs| - 1];
      var p := pairs[|pairs| - 1];
      FirstWinsValues(m, front, target);
      var f := FirstWins(m, front, target);
      forall j | 0 <= j < |pairs| && pairs[j].0 !in m && FirstOfKey(pairs, j)
        ensures pairs[j].0 in FirstWins(m, pairs, target).0 && FirstWins(m, pairs, target).0[pairs[j].0] == pairs[j].1
      {
        if j < |front| {
          assert front[j] == pairs[j];
          assert FirstOfKey(front, j);
        } else {
          assert p == pairs[j];
          FirstWinsKeys(m, front, target, p.0);
          assert forall i :: 0 <= i < |front| ==> front[i] == pairs[i];
        }
      }
    }
  }

  /** Every pair is either inserted under a new key or reported once. */
  lemma {:induction false} FirstWinsCount(m: map<string, string>, pairs: seq<(string, string)>, target: string)
    ensures |FirstWins(m, pairs, target).1| + |FirstWins(m, pairs, target).0| == |m| + |pairs|
    decreases |pairs|
  {
    if pairs != [] {
      var front := pairs[..|pairs| - 1];
      var p := pairs[|pairs| - 1];
      FirstWinsCount(m, front, target);
      var f := FirstWins(m, front, target);
      if p.0 !in f.0 {
        assert f.0[p.0 := p.1].Keys == f.0.Keys + {p.0};
        assert |f.0[p.0 := p.1]| == |f.0| + 1;
      }
    }
  }

  /** `from_iter` over the pairs of a set in ascending order leaves, for each key, its
    * greatest value. */
  lemma {:induction false} FromIterLast(pairs: seq<(string, string)>, k: string)
    ensures k in FromIter(pairs) <==> exists j :: 0 <= j < |pairs| && pairs[j].0 == k
    ensures k in FromIter(pairs) ==>
      exists j :: 0 <= j < |pairs| && pairs[j] == (k, FromIter(pairs)[k])
        && forall i :: j < i < |pairs| ==> pairs[i].0 != k
    decreases |pairs|
  {
    if pairs != [] {
      var front := pairs[..|pairs| - 1];
      FromIterLast(front, k);
      if exists j :: 0 <= j < |front| && front[j].0 == k {
        var j :| 0 <= j < |front| && front[j].0 == k;
        assert pairs[j] == front[j];
      }
      if pairs[|pairs| - 1].0 != k && k in FromIter(front) {
        var j :| 0 <= j < |front| && front[j] == (k, FromIter(front)[k])
          && forall i :: j < i < |front| ==> front[i].0 != k;
        assert pairs[j] == front[j];
      }
      if exists j :: 0 <= j < |pairs| && pairs[j].0 == k {
        var j :| 0 <= j < |pairs| && pairs[j].0 == k;
        if j < |front| {
          assert front[j] == pairs[j];
        }
      }
    }
  }

  /** The target starts from its own properties, one value per key: the greatest. */
  lemma InitialPropsSpec(t: Route, k: string)
    ensures var m := PropertiesMap(t);
      (k in m <==> exists v :: (k, v) in t.object_properties)
      && (k in m ==>
            (k, m[k]) in t.object_properties
            && forall w :: (k, w) in t.object_properties && w != m[k] ==> StringBelow(w, m[k]))
  {
    PairOrder();
    var asc := Ascending(t.object_properties, PairBelow);
    AscendingSorted(t.object_properties, PairBelow);
    FromIterLast(asc, k);
    var m := FromIter(asc);
    if exists v :: (k, v) in t.object_properties {
      var v :| (k, v) in t.object_properties;
      assert (k, v) in asc;
    }
    if k in m {
      var j :| 0 <= j < |asc| && asc[j] == (k, m[k]) && forall i :: j < i < |asc| ==> asc[i].0 != k;
      assert asc[j] in t.object_properties;
      GreatestOfKey(asc, j, k);
    }
  }

  lemma GreatestOfKey(asc: seq<(string, string)>, j: nat, k: string)
    requires StrictTotal(PairBelow)
    requires forall a, b :: 0 <= a < b < |asc| ==> PairBelow(asc[a], asc[b])
    requires j < |asc| && asc[j].0 == k && forall i :: j < i < |asc| ==> asc[i].0 != k
    ensures forall w :: (k, w) in asc && w != asc[j].1 ==> StringBelow(w, asc[j].1)
  {
    forall w | (k, w) in asc && w != asc[j].1
      ensures StringBelow(w, asc[j].1)
    {
      var i :| 0 <= i < |asc| && asc[i] == (k, w);
      assert PairBelow(asc[i], asc[j]);
    }
  }

  /** Reattachment touches only the target: every other route, every id and the number of
    * routes stay, and an existing target gains the gathered codes and the first-wins
    * properties. */
  lemma ReattachedRoutesSpec(routes: seq<Route>, ids: seq<string>, target: string)
    ensures var r := ReattachedRoutes(routes, ids, target).0;
      |r| == |routes|
      && (forall i :: 0 <= i < |routes| ==> r[i].id == routes[i].id)
      && (forall i :: 0 <= i < |routes| && routes[i].id != target ==> r[i] == routes[i])
      && IdSet(r, RouteKey) == IdSet(routes, RouteKey)
      && (forall i :: 0 <= i < |routes| && routes[i].id == target && GetIdx(routes, RouteKey, target) == Some(i) ==>
            r[i].codes == routes[i].codes + GatheredCodes(routes, ids)
            && r[i].object_properties == Entries(FirstWins(PropertiesMap(routes[i]), GatheredPairs(routes, ids), target).0))
  {
    var r := ReattachedRoutes(routes, ids, target).0;
    forall i | 0 <= i < |routes| && routes[i].id != target
      ensures r[i] == routes[i]
    {
      if GetIdx(routes, RouteKey, target).Some? {
        assert GetIdx(routes, RouteKey, target).value != i;
      }
    }
    assert forall x :: x in IdSet(r, RouteKey) ==> x in IdSet(routes, RouteKey) by {
      forall x | x in IdSet(r, RouteKey) ensures x in IdSet(routes, RouteKey) {
        var i :| 0 <= i < |r| && RouteKey(r[i]) == x;
        assert RouteKey(routes[i]) == x;
      }
    }
    assert forall x :: x in IdSet(routes, RouteKey) ==> x in IdSet(r, RouteKey) by {
      forall x | x in IdSet(routes, RouteKey) ensures x in IdSet(r, RouteKey) {
        var i :| 0 <= i < |routes| && RouteKey(routes[i]) == x;
        assert RouteKey(r[i]) == x;
      }
    }
  }

  /** Running the properties loop over `a + b` is running it over `a`, then over `b`. */
  lemma {:induction false} FirstWinsAppend(m: map<string, string>, a: seq<(string, string)>, b: seq<(string, string)>, target: string)
    ensures var fa := FirstWins(m, a, target);
      var fb := FirstWins(fa.0, b, target);
      FirstWins(m, a + b, target) == (fb.0, fa.1 + fb.1)
    decreases |b|
  {
    if b == [] {
      assert a + b == a;
      var fa := FirstWins(m, a, target);
      assert FirstWins(fa.0, b, target) == (fa.0, []);
      assert fa.1 + [] == fa.1;
    } else {
      var front := b[..|b| - 1];
      assert (a + b)[..|a + b| - 1] == a + front;
      assert (a + b)[|a + b| - 1] == b[|b| - 1];
      FirstWinsAppend(m, a, front, target);
      var fa := FirstWins(m, a, target);
      var ff := FirstWins(fa.0, front, target);
      assert FirstWins(m, a + front, target) == (ff.0, fa.1 + ff.1);
      var p := b[|b| - 1];
      if p.0 !in ff.0 {
        assert FirstWins(fa.0, b, target) == (ff.0[p.0 := p.1], ff.1);
      } else {
        var row := Report.ReportRow(MultipleValue, MultipleMessage(target, p.0, p.1));
        assert FirstWins(fa.0, b, target) == (ff.0, ff.1 + [row]);
        assert fa.1 + ff.1 + [row] == fa.1 + (ff.1 + [row]);
      }
    }
  }

  /** The properties loop over one regrouped route's pairs. */
  method AbsorbProperties(props: map<string, string>, pairs: seq<(string, string)>, target: string,
                          report: Report.Report<ReportCategory>)
    returns (r: map<string, string>)
    modifies report
    ensures var fw := FirstWins(props, pairs, target);
      r == fw.0
      && report.warnings == Report.RecordAll(old(report.warnings), fw.1)
      && report.errors == old(report.errors)
  {
    r := props;
    ghost var ws: seq<Row> := [];
    for j := 0 to |pairs|
      invariant (r, ws) == FirstWins(props, pairs[..j], target)
      invariant report.warnings == Report.RecordAll(old(report.warnings), ws)
      invariant report.errors == old(report.errors)
    {
      var key := pairs[j].0;
      var value := pairs[j].1;
      assert pairs[..j + 1][..j] == pairs[..j];
      if key !in r {
        r := r[key := value];
      } else {
        var row := Report.ReportRow(MultipleValue, MultipleMessage(target, key, value));
        report.AddWarning(row.message, row.category);
        Report.RecordAllConcat(old(report.warnings), ws, [row]);
        ws := ws + [row];
      }
    }
    assert pairs[..|pairs|] == pairs;
  }

  /** `reattach_codes_and_object_properties`: gathers the codes and the properties of the
    * regrouped routes in turn, warning about each property whose key is taken, then rewrites
    * the target. */
  method ReattachCodesAndProperties(routes: seq<Route>, ids: seq<string>, target: string,
                                    report: Report.Report<ReportCategory>)
    returns (r: seq<Route>)
    modifies report
    ensures var rr := ReattachedRoutes(routes, ids, target);
      r == rr.0
      && report.warnings == Report.RecordAll(old(report.warnings), rr.1)
      && report.errors == old(report.errors)
  {
    var codes: KeysValues := {};
    var m0 := InitialProps(routes, target);
    var props := m0;
    ghost var ws: seq<Row> := [];
    PairOrder();
    for i := 0 to |ids|
      invariant codes == GatheredCodes(routes, ids[..i])
      invariant (props, ws) == FirstWins(m0, GatheredPairs(routes, ids[..i]), target)
      invariant report.warnings == Report.RecordAll(old(report.warnings), ws)
      invariant report.errors == old(report.errors)
    {
      assert ids[..i + 1][..i] == ids[..i];
      match GetIdx(routes, RouteKey, ids[i]) {
        case None =>
        case Some(x) =>
          var route := routes[x];
          codes := codes + route.codes;
          codes := codes + {("ntfs_source", route.id)};
          var pairs := Ascending(route.object_properties, PairBelow);
          ghost var before := GatheredPairs(routes, ids[..i]);
          ghost var ws0 := ws;
          FirstWinsAppend(m0, before, pairs, target);
          props := AbsorbProperties(props, pairs, target, report);
          ws := ws + FirstWins(FirstWins(m0, before, target).0, pairs, target).1;
          Report.RecordAllConcat(old(report.warnings), ws0, FirstWins(FirstWins(m0, before, target).0, pairs, target).1);
      }
    }
    assert ids[..|ids|] == ids;
    r := routes;
    match GetIdx(routes, RouteKey, target) {
      case None =>
      case Some(t) =>
        r := r[t := r[t].(codes := r[t].codes + codes, object_properties := Entries(props))];
    }
  }

  // ----- consolidating lines -----

  function NoConsolidationMessage(line_id: string, rc: RouteConsolidationConfiguration): string
  {
    "No route consolidation needed on line id \"" + line_id + "\" for rule \"" + Display(rc) + "\""
  }

  function ImpossibleMessage(rc: RouteConsolidationConfiguration, e: string): string
  {
    "Route consolidation impossible for rule \"" + Display(rc) + "\". " + e
  }

  function NotRegrouped(ids: seq<string>): Route -> bool
  {
    (r: Route) => r.id !in ids
  }

  /** One direction of a line: the collections afterwards and the warnings filed. A target
    * that cannot be used is reported and the direction skipped; otherwise the journeys and
    * the codes and properties move to the target and the regrouped routes are deleted. */
  function DirectionStep(c: Collections, line_id: string, rc: RouteConsolidationConfiguration, dt: string, ids: seq<string>)
    : (Collections, seq<Row>)
  {
    match RouteIdTarget(c.routes, line_id, dt)
    case Err(e) => (c, [Report.ReportRow(ConsolidationNotApplied, ImpossibleMessage(rc, e))])
    case Ok(t) =>
      var rr := ReattachedRoutes(t.0, ids, t.1);
      (c.(routes := Retain(rr.0, NotRegrouped(ids)), vehicle_journeys := Reattached(c.vehicle_journeys, ids, t.1)), rr.1)
  }

  /** The directions `dts` of a line, one after the other. */
  function Directions(c: Collections, line_id: string, rc: RouteConsolidationConfiguration,
                      groups: map<string, seq<string>>, dts: seq<string>): (Collections, seq<Row>)
    requires forall k :: 0 <= k < |dts| ==> dts[k] in groups
    decreases |dts|
  {
    if dts == [] then (c, [])
    else
      var p := Directions(c, line_id, rc, groups, dts[..|dts| - 1]);
      var s := DirectionStep(p.0, line_id, rc, dts[|dts| - 1], groups[dts[|dts| - 1]]);
      (s.0, p.1 + s.1)
  }

  /** One line: a warning when it has nothing to regroup, otherwise each of its directions,
    * grouped once before any of them is handled. */
  function LineStep(c: Collections, line_id: string, rc: RouteConsolidationConfiguration): (Collections, seq<Row>)
  {
    var groups := RoutesByDirection(c.routes, line_id);
    if groups == map[] then (c, [Report.ReportRow(ConsolidationNotApplied, NoConsolidationMessage(line_id, rc))])
    else
      StringOrder();
      Directions(c, line_id, rc, groups, Ascending(groups.Keys, StringBelow))
  }

  /** `apply_route_consolidation` over `lines`, in order. */
  function Consolidated(c: Collections, lines: seq<string>, rc: RouteConsolidationConfiguration): (Collections, seq<Row>)
    decreases |lines|
  {
    if lines == [] then (c, [])
    else
      var p := Consolidated(c, lines[..|lines| - 1], rc);
      var s := LineStep(p.0, lines[|lines| - 1], rc);
      (s.0, p.1 + s.1)
  }

  /** Deleting the regrouped routes leaves exactly the other ids. */
  lemma RetainNotRegrouped(routes: seq<Route>, ids: seq<string>, x: string)
    ensures x in IdSet(Retain(routes, NotRegrouped(ids)), RouteKey) <==> x in IdSet(routes, RouteKey) && x !in ids
  {
    var kept := Retain(routes, NotRegrouped(ids));
    if x in IdSet(kept, RouteKey) {
      var j :| 0 <= j < |kept| && RouteKey(kept[j]) == x;
      assert kept[j] in routes && NotRegrouped(ids)(kept[j]);
    }
    if x in IdSet(routes, RouteKey) && x !in ids {
      var i :| 0 <= i < |routes| && RouteKey(routes[i]) == x;
      assert NotRegrouped(ids)(routes[i]);
      var j :| 0 <= j < |kept| && kept[j] == routes[i];
    }
  }

  /** Reattaching to `target` and deleting the regrouped routes leaves the other ids. */
  lemma RetainedIds(routes: seq<Route>, ids: seq<string>, target: string)
    ensures IdSet(Retain(ReattachedRoutes(routes, ids, target).0, NotRegrouped(ids)), RouteKey) ==
      IdSet(routes, RouteKey) - (set x | x in ids)
  {
    var rr := ReattachedRoutes(routes, ids, target).0;
    ReattachedRoutesSpec(routes, ids, target);
    forall x
      ensures x in IdSet(Retain(rr, NotRegrouped(ids)), RouteKey) <==> x in IdSet(routes, RouteKey) - (set x | x in ids)
    {
      RetainNotRegrouped(rr, ids, x);
    }
  }

  /** An unusable target leaves everything as it was and files one warning. */
  lemma DirectionSkipped(c: Collections, line_id: string, rc: RouteConsolidationConfiguration, dt: string, ids: seq<string>)
    requires RouteIdTarget(c.routes, line_id, dt).Err?
    ensures DirectionStep(c, line_id, rc, dt, ids) ==
      (c, [Report.ReportRow(ConsolidationNotApplied, ImpossibleMessage(rc, RouteIdTarget(c.routes, line_id, dt).error))])
  {
  }

  /** A usable target takes over the direction: none of the regrouped routes is left, the
    * target is there and every other route stays. */
  lemma DirectionRoutes(c: Collections, line_id: string, rc: RouteConsolidationConfiguration, dt: string, ids: seq<string>)
    requires UniqueIds(c.routes, RouteKey) && GenerateRouteId(line_id, dt) !in ids
    requires RouteIdTarget(c.routes, line_id, dt).Ok?
    ensures IdSet(DirectionStep(c, line_id, rc, dt, ids).0.routes, RouteKey) ==
      (IdSet(c.routes, RouteKey) - (set x | x in ids)) + {GenerateRouteId(line_id, dt)}
  {
    var target := GenerateRouteId(line_id, dt);
    RouteIdTargetSpec(c.routes, line_id, dt);
    var t := RouteIdTarget(c.routes, line_id, dt).value;
    IdSetAppend(c.routes, [Route(target, "", line_id, Some(dt), {}, {})], RouteKey);
    Upsert.IdSetSingleton(Route(target, "", line_id, Some(dt), {}, {}), RouteKey);
    assert IdSet(t.0, RouteKey) == IdSet(c.routes, RouteKey) + {target};
    RetainedIds(t.0, ids, target);
  }

  /** Every journey of a regrouped route now runs on the target; no journey is added or
    * removed, and lines and networks are untouched. */
  lemma DirectionJourneys(c: Collections, line_id: string, rc: RouteConsolidationConfiguration, dt: string, ids: seq<string>)
    ensures var d := DirectionStep(c, line_id, rc, dt, ids).0;
      d.lines == c.lines && d.networks == c.networks
      && |d.vehicle_journeys| == |c.vehicle_journeys|
      && (RouteIdTarget(c.routes, line_id, dt).Ok? ==>
            forall i :: 0 <= i < |c.vehicle_journeys| && c.vehicle_journeys[i].route_id in ids ==>
              d.vehicle_journeys[i].route_id == GenerateRouteId(line_id, dt))
  {
    if RouteIdTarget(c.routes, line_id, dt).Ok? {
      var target := GenerateRouteId(line_id, dt);
      assert RouteIdTarget(c.routes, line_id, dt).value.1 == target;
    }
  }

  /** A line none of whose routes is to be regrouped is left as it is, with one
    * `ConsolidationNotApplied` warning naming the line and the rule. */
  lemma NothingToConsolidate(c: Collections, line_id: string, rc: RouteConsolidationConfiguration)
    requires forall i :: 0 <= i < |c.routes| ==> !ToRegroup(c.routes[i], line_id)
    ensures LineStep(c, line_id, rc) == (c, [Report.ReportRow(ConsolidationNotApplied, NoConsolidationMessage(line_id, rc))])
  {
    RoutesByDirectionKeys(c.routes, line_id);
    var groups := RoutesByDirection(c.routes, line_id);
    assert forall dt :: dt !in groups;
    assert groups == map[];
  }

  /** Line `L` with route `L-B` in direction `A` and route `X` in direction `B`. */
  function OrderExample(): Collections
  {
    Collections([], [], [Route("L-B", "", "L", Some("A"), {}, {}), Route("X", "", "L", Some("B"), {}, {})], [])
  }

  /** The directions of line `L` in `OrderExample`. */
  function OrderExampleGroups(): map<string, seq<string>>
  {
    map["A" := ["L-B"], "B" := ["X"]]
  }

  lemma OrderExampleGrouped()
    ensures RoutesByDirection(OrderExample().routes, "L") == OrderExampleGroups()
  {
    var c := OrderExample();
    var r0 := c.routes[0];
    assert c.routes[..1] == [r0];
    assert [r0][..0] == [];
    assert GenerateRouteId("L", "A") == "L-A" && GenerateRouteId("L", "B") == "L-B";
    assert RoutesByDirection([], "L") == map[];
    assert [] + ["L-B"] == ["L-B"] && [] + ["X"] == ["X"];
    assert RoutesByDirection([r0], "L") == map["A" := ["L-B"]];
  }

  /** Direction `A` of `OrderExample` alone: `L-B` is regrouped into the new route `L-A`. */
  lemma OrderExampleStepA(rc: RouteConsolidationConfiguration)
    ensures IdSet(DirectionStep(OrderExample(), "L", rc, "A", ["L-B"]).0.routes, RouteKey) == {"X", "L-A"}
  {
    var c := OrderExample();
    assert GenerateRouteId("L", "A") == "L-A";
    assert RouteKey(c.routes[0]) == "L-B" && RouteKey(c.routes[1]) == "X";
    assert IdSet(c.routes, RouteKey) == {"L-B", "X"};
    assert UniqueIds(c.routes, RouteKey);
    DirectionRoutes(c, "L", rc, "A", ["L-B"]);
  }

  /** Direction `A` first: `L-B` is regrouped into `L-A`, then recreated as the target of `B`,
    * which absorbs `X`. */
  lemma OrderExampleAThenB(rc: RouteConsolidationConfiguration)
    ensures "X" !in IdSet(Directions(OrderExample(), "L", rc, OrderExampleGroups(), ["A", "B"]).0.routes, RouteKey)
  {
    var c := OrderExample();
    var groups := OrderExampleGroups();
    assert ["A", "B"][..1] == ["A"] && ["A"][..0] == [];
    var a := DirectionStep(c, "L", rc, "A", ["L-B"]);
    assert Directions(c, "L", rc, groups, ["A"]).0 == a.0;
    OrderExampleStepA(rc);
    assert GenerateRouteId("L", "B") == "L-B";
    assert GetIdx(a.0.routes, RouteKey, "L-B").None?;
    RetainedIds(a.0.routes + [Route("L-B", "", "L", Some("B"), {}, {})], ["X"], "L-B");
  }

  /** Direction `B` first: its target `L-B` is a route in direction `A`, so `B` is skipped
    * and `X` stays. */
  lemma OrderExampleBThenA(rc: RouteConsolidationConfiguration)
    ensures "X" in IdSet(Directions(OrderExample(), "L", rc, OrderExampleGroups(), ["B", "A"]).0.routes, RouteKey)
  {
    var c := OrderExample();
    var groups := OrderExampleGroups();
    assert GenerateRouteId("L", "A") == "L-A" && GenerateRouteId("L", "B") == "L-B";
    assert RouteKey(c.routes[0]) == "L-B" && RouteKey(c.routes[1]) == "X";
    assert IdSet(c.routes, RouteKey) == {"L-B", "X"};
    assert UniqueIds(c.routes, RouteKey);
    assert ["B", "A"][..1] == ["B"] && ["B"][..0] == [];
    assert GetIdx(c.routes, RouteKey, "L-B") == Some(0);
    assert RouteIdTarget(c.routes, "L", "B").Err?;
    DirectionSkipped(c, "L", rc, "B", ["X"]);
    assert Directions(c, "L", rc, groups, ["B"]).0 == c;
    DirectionRoutes(c, "L", rc, "A", ["L-B"]);
  }

  /** The order in which the directions are visited decides which routes survive, not only
    * the order of the warnings: with the directions of `OrderExample`, visiting `A` first
    * removes `X`, visiting `B` first keeps it. */
  lemma DirectionOrderMatters(rc: RouteConsolidationConfiguration)
    ensures var c := OrderExample();
      var groups := RoutesByDirection(c.routes, "L");
      && groups == map["A" := ["L-B"], "B" := ["X"]]
      && "X" !in IdSet(Directions(c, "L", rc, groups, ["A", "B"]).0.routes, RouteKey)
      && "X" in IdSet(Directions(c, "L", rc, groups, ["B", "A"]).0.routes, RouteKey)
  {
    OrderExampleGrouped();
    OrderExampleAThenB(rc);
    OrderExampleBThenA(rc);
  }

  /** The body of the direction loop of `apply_route_consolidation`. */
  method ConsolidateDirection(c: Collections, line_id: string, rc: RouteConsolidationConfiguration, dt: string,
                              ids: seq<string>, report: Report.Report<ReportCategory>)
    returns (d: Collections)
    modifies report
    ensures var s := DirectionStep(c, line_id, rc, dt, ids);
      d == s.0
      && report.warnings == Report.RecordAll(old(report.warnings), s.1)
      && report.errors == old(report.errors)
  {
    match RouteIdTarget(c.routes, line_id, dt) {
      case Err(e) =>
        report.AddWarning(ImpossibleMessage(rc, e), ConsolidationNotApplied);
        d := c;
      case Ok(t) =>
        var vjs := ReattachVehicleJourneys(c.vehicle_journeys, ids, t.1);
        var routes := ReattachCodesAndProperties(t.0, ids, t.1, report);
        d := c.(routes := Retain(routes, NotRegrouped(ids)), vehicle_journeys := vjs);
    }
  }

  /** The direction loop of `apply_route_consolidation`. */
  method ConsolidateDirections(c: Collections, line_id: string, rc: RouteConsolidationConfiguration,
                               groups: map<string, seq<string>>, dts: seq<string>, report: Report.Report<ReportCategory>)
    returns (d: Collections)
    requires forall k :: 0 <= k < |dts| ==> dts[k] in groups
    modifies report
    ensures var s := Directions(c, line_id, rc, groups, dts);
      d == s.0
      && report.warnings == Report.RecordAll(old(report.warnings), s.1)
      && report.errors == old(report.errors)
  {
    d := c;
    ghost var ws: seq<Row> := [];
    for j := 0 to |dts|
      invariant (d, ws) == Directions(c, line_id, rc, groups, dts[..j])
      invariant report.warnings == Report.RecordAll(old(report.warnings), ws)
      invariant report.errors == old(report.errors)
    {
      assert dts[..j + 1][..j] == dts[..j];
      ghost var step := DirectionStep(d, line_id, rc, dts[j], groups[dts[j]]);
      d := ConsolidateDirection(d, line_id, rc, dts[j], groups[dts[j]], report);
      Report.RecordAllConcat(old(report.warnings), ws, step.1);
      ws := ws + step.1;
    }
    assert dts[..|dts|] == dts;
  }

  /** The body of the line loop of `apply_route_consolidation`. */
  method ConsolidateLine(c: Collections, line_id: string, rc: RouteConsolidationConfiguration,
                         report: Report.Report<ReportCategory>)
    returns (d: Collections)
    modifies report
    ensures var s := LineStep(c, line_id, rc);
      d == s.0
      && report.warnings == Report.RecordAll(old(report.warnings), s.1)
      && report.errors == old(report.errors)
  {
    var groups := RoutesByDirection(c.routes, line_id);
    if groups == map[] {
      report.AddWarning(NoConsolidationMessage(line_id, rc), ConsolidationNotApplied);
      d := c;
    } else {
      StringOrder();
      var dts := Ascending(groups.Keys, StringBelow);
      d := ConsolidateDirections(c, line_id, rc, groups, dts, report);
    }
  }

  /** `apply_route_consolidation`: each line in turn. */
  method ApplyRouteConsolidation(c: Collections, lines: seq<string>, rc: RouteConsolidationConfiguration,
                                 report: Report.Report<ReportCategory>)
    returns (d: Collections)
    modifies report
    ensures var s := Consolidated(c, lines, rc);
      d == s.0
      && report.warnings == Report.RecordAll(old(report.warnings), s.1)
      && report.errors == old(report.errors)
  {
    d := c;
    ghost var ws: seq<Row> := [];
    for i := 0 to |lines|
      invariant (d, ws) == Consolidated(c, lines[..i], rc)
      invariant report.warnings == Report.RecordAll(old(report.warnings), ws)
      invariant report.errors == old(report.errors)
    {
      assert lines[..i + 1][..i] == lines[..i];
      ghost var step := LineStep(d, lines[i], rc);
      d := ConsolidateLine(d, lines[i], rc, report);
      Report.RecordAllConcat(old(report.warnings), ws, step.1);
      ws := ws + step.1;
    }
    assert lines[..|lines|] == lines;
  }

  // ----- the rules -----

  function LineNotFound(id: string): string
  {
    "The line \"" + id + "\" doesn't exist"
  }

  function NetworkNotFound(id: string): string
  {
    "The network \"" + id + "\" doesn't exist"
  }

  function OnNetwork(network_id: string): Line -> bool
  {
    (l: Line) => l.network_id == network_id
  }

  function LineIds(lines: seq<Line>): (ids: seq<string>)
    ensures |ids| == |lines| && forall i :: 0 <= i < |lines| ==> ids[i] == lines[i].id
  {
    seq(|lines|, i requires 0 <= i < |lines| => lines[i].id)
  }

  /** What a run files and leaves behind. */
  datatype Outcome = Outcome(c: Collections, warnings: seq<Row>, errors: seq<Row>)

  /** One rule: its line, or every line of its network in collection order, consolidated; an
    * unknown line or network is an `ObjectNotFound` error. */
  function RuleApplied(c: Collections, rc: RouteConsolidationConfiguration): Outcome
  {
    match rc.object_type
    case LineObject =>
      if rc.object_id in IdSet(c.lines, LineKey) then
        var s := Consolidated(c, [rc.object_id], rc);
        Outcome(s.0, s.1, [])
      else Outcome(c, [], [Report.ReportRow(ObjectNotFound, LineNotFound(rc.object_id))])
    case NetworkObject =>
      if rc.object_id in IdSet(c.networks, NetworkKey) then
        var s := Consolidated(c, LineIds(Retain(c.lines, OnNetwork(rc.object_id))), rc);
        Outcome(s.0, s.1, [])
      else Outcome(c, [], [Report.ReportRow(ObjectNotFound, NetworkNotFound(rc.object_id))])
  }

  /** The rules in file order. */
  function RulesApplied(c: Collections, rules: seq<RouteConsolidationConfiguration>): Outcome
    decreases |rules|
  {
    if rules == [] then Outcome(c, [], [])
    else
      var p := RulesApplied(c, rules[..|rules| - 1]);
      var s := RuleApplied(p.c, rules[|rules| - 1]);
      Outcome(s.c, p.warnings + s.warnings, p.errors + s.errors)
  }

  /** A network rule consolidates exactly the lines of that network, in collection order. */
  lemma NetworkLines(lines: seq<Line>, network_id: string)
    ensures var ids := LineIds(Retain(lines, OnNetwork(network_id)));
      forall x :: x in ids <==> exists i :: 0 <= i < |lines| && lines[i].id == x && lines[i].network_id == network_id
  {
    var kept := Retain(lines, OnNetwork(network_id));
    var ids := LineIds(kept);
    forall x
      ensures x in ids <==> exists i :: 0 <= i < |lines| && lines[i].id == x && lines[i].network_id == network_id
    {
      if x in ids {
        var k :| 0 <= k < |ids| && ids[k] == x;
        assert kept[k] in lines && OnNetwork(network_id)(kept[k]);
      }
      if exists i :: 0 <= i < |lines| && lines[i].id == x && lines[i].network_id == network_id {
        var i :| 0 <= i < |lines| && lines[i].id == x && lines[i].network_id == network_id;
        assert OnNetwork(network_id)(lines[i]);
        var k :| 0 <= k < |kept| && kept[k] == lines[i];
        assert ids[k] == x;
      }
    }
  }

  /** A rule naming an unknown line or network changes nothing and files exactly one
    * `ObjectNotFound` error; a known one files no error. */
  lemma RuleAppliedErrors(c: Collections, rc: RouteConsolidationConfiguration)
    ensures var known := if rc.object_type.LineObject? then rc.object_id in IdSet(c.lines, LineKey)
                         else rc.object_id in IdSet(c.networks, NetworkKey);
      var o := RuleApplied(c, rc);
      (known ==> o.errors == [])
      && (!known ==> o.c == c && o.warnings == [] && |o.errors| == 1 && o.errors[0].category == ObjectNotFound)
  {
  }

  // ----- the rule file -----

  /** A row of the consolidation file: a rule, or the error of a row that does not deserialise. */
  datatype ParsedRule = Rule(rule: RouteConsolidationConfiguration) | Unreadable(error: string)

  datatype RuleFile = RuleFile(name: string, rows: seq<ParsedRule>)

  /** The reading loop over the rows of the file named `name`: the rules in file order, and
    * one warning per row that does not deserialise. */
  function ReadRows(name: string, rows: seq<ParsedRule>): (seq<RouteConsolidationConfiguration>, seq<Row>)
    decreases |rows|
  {
    if rows == [] then ([], [])
    else
      var p := ReadRows(name, rows[..|rows| - 1]);
      match rows[|rows| - 1]
      case Rule(rc) => (p.0 + [rc], p.1)
      case Unreadable(e) => (p.0, p.1 + [InvalidRow(name, e)])
  }

  /** Every row gives a rule or a warning; the rules are exactly those of the rows, and a file
    * whose rows all deserialise gives its rules in file order and no warning; every warning is
    * an `InvalidFile` one, and each row that does not deserialise is reported with the file's
    * name and its error. */
  lemma {:induction false} ReadRowsSpec(name: string, rows: seq<ParsedRule>)
    ensures |ReadRows(name, rows).0| + |ReadRows(name, rows).1| == |rows|
    ensures forall x :: x in ReadRows(name, rows).0 <==> Rule(x) in rows
    ensures (forall k :: 0 <= k < |rows| ==> rows[k].Rule?) ==>
      ReadRows(name, rows).1 == [] && ReadRows(name, rows).0 == seq(|rows|, k requires 0 <= k < |rows| => rows[k].rule)
    ensures forall t :: 0 <= t < |ReadRows(name, rows).1| ==> ReadRows(name, rows).1[t].category == InvalidFile
    ensures forall k :: 0 <= k < |rows| && rows[k].Unreadable? ==> InvalidRow(name, rows[k].error) in ReadRows(name, rows).1
    decreases |rows|
  {
    if rows != [] {
      var front := rows[..|rows| - 1];
      ReadRowsSpec(name, front);
      assert rows == front + [rows[|rows| - 1]];
      assert forall k :: 0 <= k < |front| ==> front[k] == rows[k];
    }
  }

  /** `read_route_consolidation_file`: the rows in turn, each unreadable one reported. */
  method ReadRouteConsolidationFile(f: RuleFile, report: Report.Report<ReportCategory>)
    returns (rules: seq<RouteConsolidationConfiguration>)
    modifies report
    ensures rules == ReadRows(f.name, f.rows).0
    ensures report.warnings == Report.RecordAll(old(report.warnings), ReadRows(f.name, f.rows).1)
    ensures report.errors == old(report.errors)
  {
    rules := [];
    ghost var ws: seq<Row> := [];
    for j := 0 to |f.rows|
      invariant (rules, ws) == ReadRows(f.name, f.rows[..j])
      invariant report.warnings == Report.RecordAll(old(report.warnings), ws)
      invariant report.errors == old(report.errors)
    {
      assert f.rows[..j + 1][..j] == f.rows[..j];
      match f.rows[j] {
        case Rule(rc) =>
          rules := rules + [rc];
        case Unreadable(e) =>
          var row := InvalidRow(f.name, e);
          report.AddWarning(row.message, row.category);
          Report.RecordAllConcat(old(report.warnings), ws, [row]);
          ws := ws + [row];
      }
    }
    assert f.rows[..|f.rows|] == f.rows;
  }

  /** The loop of `apply_rules` over the rules read: each rule in turn. */
  method ApplyRuleSeq(rs: seq<RouteConsolidationConfiguration>, c: Collections,
                      report: Report.Report<ReportCategory>)
    returns (d: Collections)
    modifies report
    ensures d == RulesApplied(c, rs).c
    ensures report.warnings == Report.RecordAll(old(report.warnings), RulesApplied(c, rs).warnings)
    ensures report.errors == Report.RecordAll(old(report.errors), RulesApplied(c, rs).errors)
  {
    d := c;
    ghost var ws: seq<Row> := [];
    ghost var es: seq<Row> := [];
    for i := 0 to |rs|
      invariant RulesApplied(c, rs[..i]) == Outcome(d, ws, es)
      invariant report.warnings == Report.RecordAll(old(report.warnings), ws)
      invariant report.errors == Report.RecordAll(old(report.errors), es)
    {
      assert rs[..i + 1][..i] == rs[..i];
      var rc := rs[i];
      ghost var o := RuleApplied(d, rc);
      match rc.object_type {
        case LineObject =>
          if GetIdx(d.lines, LineKey, rc.object_id).Some? {
            d := ApplyRouteConsolidation(d, [rc.object_id], rc, report);
          } else {
            report.AddError(LineNotFound(rc.object_id), ObjectNotFound);
          }
        case NetworkObject =>
          if GetIdx(d.networks, NetworkKey, rc.object_id).Some? {
            var line_ids := LineIds(Retain(d.lines, OnNetwork(rc.object_id)));
            d := ApplyRouteConsolidation(d, line_ids, rc, report);
          } else {
            report.AddError(NetworkNotFound(rc.object_id), ObjectNotFound);
          }
      }
      Report.RecordAllConcat(old(report.warnings), ws, o.warnings);
      Report.RecordAllConcat(old(report.errors), es, o.errors);
      ws := ws + o.warnings;
      es := es + o.errors;
    }
    assert rs[..|rs|] == rs;
  }

  /** Route consolidation's `apply_rules`: without a file nothing happens; otherwise the file is
    * read, its unreadable rows reported, and then each rule it holds applied in file order. */
  method ApplyRules(file: Option<RuleFile>, c: Collections, report: Report.Report<ReportCategory>)
    returns (d: Collections)
    modifies report
    ensures file.None? ==> d == c && report.warnings == old(report.warnings) && report.errors == old(report.errors)
    ensures file.Some? ==>
      d == RulesApplied(c, ReadRows(file.value.name, file.value.rows).0).c
      && report.warnings == Report.RecordAll(old(report.warnings),
           ReadRows(file.value.name, file.value.rows).1 + RulesApplied(c, ReadRows(file.value.name, file.value.rows).0).warnings)
      && report.errors == Report.RecordAll(old(report.errors), RulesApplied(c, ReadRows(file.value.name, file.value.rows).0).errors)
  {
    d := c;
    if file.None? {
      return;
    }
    var rs := ReadRouteConsolidationFile(file.value, report);
    d := ApplyRuleSeq(rs, c, report);
    Report.RecordAllConcat(old(report.warnings), ReadRows(file.value.name, file.value.rows).1, RulesApplied(c, rs).warnings);
  }
}
