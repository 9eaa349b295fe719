/** Extracting or removing vehicle journeys of an NTFS dataset by network or line
  * (filter-ntfs/src/filter.rs). A filter gathers `(object type, property, value)` triples;
  * each triple selects a set of vehicle journeys, the selections are united, and the journeys
  * are then kept (Extract) or dropped (Remove) together with the stop-time side tables of
  * the journeys that are gone. */
module NtfsFilter {
  import opened Wrappers
  import opened IdCollection
  import opened Ordering

  datatype Action = Extract | Remove

  datatype ObjectType = Network | Line

  /** Property name to the set of values asked for it. */
  type PropertyValues = map<string, set<string>>

  type Filters = map<ObjectType, PropertyValues>

  /** The values recorded under `(t, property)`, none when either level is missing. */
  function Values(filters: Filters, t: ObjectType, property: string): set<string>
  {
    if t in filters && property in filters[t] then filters[t][property] else {}
  }

  /** Every `(object type, property, value)` triple a filter holds. */
  function Triples(filters: Filters): set<(ObjectType, string, string)>
  {
    set t, p, v | t in filters && p in filters[t] && v in filters[t][p] :: (t, p, v)
  }

  /** `Filter::add`'s effect on the nested maps: the value joins the set of its object type
    * and property, creating either level when it is missing. */
  function Added(filters: Filters, t: ObjectType, property: string, value: string): Filters
  {
    var props := if t in filters then filters[t] else map[];
    var values := if property in props then props[property] else {};
    filters[t := props[property := values + {value}]]
  }

  /** Adding accumulates values as a set: exactly `value` joins its own `(t, property)` and
    * every other set stays as it was. */
  lemma AddedValues(filters: Filters, t: ObjectType, property: string, value: string)
    ensures forall u, p :: Values(Added(filters, t, property, value), u, p)
                           == if u == t && p == property then Values(filters, u, p) + {value}
                              else Values(filters, u, p)
  {
  }

  /** The triples of a filter after an addition are the triples before, plus the new one. */
  lemma AddedTriples(filters: Filters, t: ObjectType, property: string, value: string)
    ensures Triples(Added(filters, t, property, value)) == Triples(filters) + {(t, property, value)}
  {
    var f' := Added(filters, t, property, value);
    AddedValues(filters, t, property, value);
    forall x | x in Triples(f')
      ensures x in Triples(filters) + {(t, property, value)}
    {
      assert x.2 in Values(f', x.0, x.1);
    }
    forall x | x in Triples(filters) + {(t, property, value)}
      ensures x in Triples(f')
    {
      assert x.2 in Values(f', x.0, x.1);
    }
  }

  /** `Filter`: the action and the triples gathered so far. */
  class Filter {
    var action: Action
    var filters: Filters

    constructor(action: Action)
      ensures this.action == action && filters == map[]
    {
      this.action := action;
      filters := map[];
    }

    /** `Filter::add`. */
    method Add(t: ObjectType, property: string, value: string)
      modifies this
      ensures filters == Added(old(filters), t, property, value) && action == old(action)
    {
      var props := if t in filters then filters[t] else map[];
      var values := if property in props then props[property] else {};
      filters := filters[t := props[property := values + {value}]];
    }
  }

  // ----- the dataset -----

  datatype Network = Network(id: string)
  datatype Line = Line(id: string, code: Option<string>, network_id: string)
  datatype Route = Route(id: string, line_id: string)
  datatype VehicleJourney = VehicleJourney(id: string, route_id: string)

  /** Stop-time side tables, keyed by journey id and stop sequence. */
  type StopTimeTable = map<(string, nat), string>

  datatype Model = Model(networks: seq<Network>, lines: seq<Line>, routes: seq<Route>,
                         vehicle_journeys: seq<VehicleJourney>, stop_time_ids: StopTimeTable,
                         stop_time_headsigns: StopTimeTable, stop_time_comments: StopTimeTable)

  function NetworkKey(n: Network): string { n.id }
  function LineKey(l: Line): string { l.id }
  function JourneyKey(vj: VehicleJourney): string { vj.id }

  /** The journey runs on a route of the line with id `lineId`. */
  predicate OnLine(m: Model, vj: VehicleJourney, lineId: string)
  {
    exists k :: 0 <= k < |m.routes| && m.routes[k].id == vj.route_id && m.routes[k].line_id == lineId
  }

  /** The journey runs on a line of the network with id `networkId`. */
  predicate OnNetwork(m: Model, vj: VehicleJourney, networkId: string)
  {
    exists l :: 0 <= l < |m.lines| && m.lines[l].network_id == networkId && OnLine(m, vj, m.lines[l].id)
  }

  /** The journeys related to a line: the handles reached from it through its routes. */
  function JourneysOfLine(m: Model, lineId: string): (r: set<nat>)
    ensures forall i: nat :: i in r <==> i < |m.vehicle_journeys| && OnLine(m, m.vehicle_journeys[i], lineId)
  {
    set i | 0 <= i < |m.vehicle_journeys| && OnLine(m, m.vehicle_journeys[i], lineId)
  }

  /** The journeys related to a network: the handles reached through its lines. */
  function JourneysOfNetwork(m: Model, networkId: string): (r: set<nat>)
    ensures forall i: nat :: i in r <==> i < |m.vehicle_journeys| && OnNetwork(m, m.vehicle_journeys[i], networkId)
  {
    set i | 0 <= i < |m.vehicle_journeys| && OnNetwork(m, m.vehicle_journeys[i], networkId)
  }

  /** The journeys of every line whose code is `code`; no such line selects nothing. */
  function JourneysOfLineCode(m: Model, code: string): (r: set<nat>)
    ensures forall i: nat :: i in r <==>
      i < |m.vehicle_journeys|
      && exists l :: 0 <= l < |m.lines| && m.lines[l].code == Some(code) && OnLine(m, m.vehicle_journeys[i], m.lines[l].id)
  {
    set i, l | 0 <= i < |m.vehicle_journeys| && 0 <= l < |m.lines| && m.lines[l].code == Some(code)
                && OnLine(m, m.vehicle_journeys[i], m.lines[l].id) :: i
  }

  function NotSupportedMessage(property: string): string
  {
    "Property '" + property + "' not yet supported."
  }

  /** `filter_by_property`: the journeys one triple selects. Networks answer to
    * `network_id`; lines to `line_code` and `line_id`. */
  function FilterByProperty(m: Model, t: ObjectType, property: string, value: string): (r: Result<set<nat>, string>)
    ensures r.Ok? ==> forall i :: i in r.value ==> i < |m.vehicle_journeys|
  {
    if t.Network? then
      if property == "network_id" then
        if value in IdSet(m.networks, NetworkKey) then Ok(JourneysOfNetwork(m, value))
        else Err("Network '" + value + "' not found.")
      else Err(NotSupportedMessage(property))
    else
      if property == "line_code" then Ok(JourneysOfLineCode(m, value))
      else if property == "line_id" then
        if value in IdSet(m.lines, LineKey) then Ok(JourneysOfLine(m, value))
        else Err("Line '" + value + "' not found.")
      else Err(NotSupportedMessage(property))
  }

  /** A triple fails exactly when its property is not one of its object type's, or when it
    * names a network or line id the dataset lacks; a line code never fails. */
  lemma FilterByPropertyFails(m: Model, t: ObjectType, property: string, value: string)
    ensures FilterByProperty(m, t, property, value).Err? <==>
      (t == ObjectType.Network && (property != "network_id" || value !in IdSet(m.networks, NetworkKey)))
      || (t == ObjectType.Line && property != "line_code"
          && (property != "line_id" || value !in IdSet(m.lines, LineKey)))
  {
  }

  // ----- the selection -----

  function TypeRank(t: ObjectType): nat
  {
    if t.Network? then 0 else 1
  }

  /** The order in which the triples are visited: object type, then property, then value. */
  predicate TripleBelow(a: (ObjectType, string, string), b: (ObjectType, string, string))
  {
    TypeRank(a.0) < TypeRank(b.0)
    || (a.0 == b.0 && (StringBelow(a.1, b.1) || (a.1 == b.1 && StringBelow(a.2, b.2))))
  }

  lemma TripleOrder()
    ensures StrictTotal(TripleBelow)
  {
    StringOrder();
  }

  /** The triples of a filter in visiting order. */
  function Visited(filters: Filters): (r: seq<(ObjectType, string, string)>)
    ensures forall x :: x in r <==> x in Triples(filters)
  {
    TripleOrder();
    Ascending(Triples(filters), TripleBelow)
  }

  /** The selection fold: the union of every triple's journeys, or the first error met. */
  function Selected(m: Model, triples: seq<(ObjectType, string, string)>): (r: Result<set<nat>, string>)
    ensures r.Ok? ==> forall i :: i in r.value ==> i < |m.vehicle_journeys|
    decreases |triples|
  {
    if triples == [] then Ok({})
    else
      var x := triples[|triples| - 1];
      match Selected(m, triples[..|triples| - 1])
      case Err(e) => Err(e)
      case Ok(s) =>
        match FilterByProperty(m, x.0, x.1, x.2)
        case Err(e) => Err(e)
        case Ok(t) => Ok(s + t)
  }

  /** Whether one triple of the sequence selects without error. */
  predicate TripleOk(m: Model, triples: seq<(ObjectType, string, string)>, k: int)
    requires 0 <= k < |triples|
  {
    FilterByProperty(m, triples[k].0, triples[k].1, triples[k].2).Ok?
  }

  /** The selection succeeds iff every triple does. */
  lemma {:induction false} SelectedOk(m: Model, triples: seq<(ObjectType, string, string)>)
    ensures Selected(m, triples).Ok? <==> forall k :: 0 <= k < |triples| ==> TripleOk(m, triples, k)
    decreases |triples|
  {
    if triples != [] {
      var front := triples[..|triples| - 1];
      SelectedOk(m, front);
      assert forall k :: 0 <= k < |front| ==> TripleOk(m, front, k) == TripleOk(m, triples, k);
      var x := triples[|front|];
      assert Selected(m, triples).Ok? <==>
        Selected(m, front).Ok? && FilterByProperty(m, x.0, x.1, x.2).Ok?;
      if Selected(m, triples).Ok? {
        forall k | 0 <= k < |triples| ensures TripleOk(m, triples, k) {
          if k < |front| { assert TripleOk(m, front, k); }
        }
      } else if Selected(m, front).Ok? {
        assert !TripleOk(m, triples, |front|);
      } else {
        var k :| 0 <= k < |front| && !TripleOk(m, front, k);
        assert !TripleOk(m, triples, k);
      }
    }
  }

  /** A successful selection is the union of the triples' selections. */
  lemma {:induction false} SelectedUnion(m: Model, triples: seq<(ObjectType, string, string)>)
    requires Selected(m, triples).Ok?
    ensures forall i :: i in Selected(m, triples).value <==>
      exists k :: 0 <= k < |triples| && TripleOk(m, triples, k)
                  && i in FilterByProperty(m, triples[k].0, triples[k].1, triples[k].2).value
    decreases |triples|
  {
    if triples != [] {
      var front := triples[..|triples| - 1];
      SelectedUnion(m, front);
      assert forall k :: 0 <= k < |front| ==> front[k] == triples[k];
    }
  }

  /** A failed selection carries the error of the first triple that fails. */
  lemma {:induction false} SelectedError(m: Model, triples: seq<(ObjectType, string, string)>)
    requires Selected(m, triples).Err?
    ensures exists k :: 0 <= k < |triples|
                        && FilterByProperty(m, triples[k].0, triples[k].1, triples[k].2) == Err(Selected(m, triples).error)
                        && forall j :: 0 <= j < k ==> TripleOk(m, triples, j)
    decreases |triples|
  {
    var front := triples[..|triples| - 1];
    assert forall k :: 0 <= k < |front| ==> front[k] == triples[k];
    if Selected(m, front).Err? {
      SelectedError(m, front);
      var k :| 0 <= k < |front|
               && FilterByProperty(m, front[k].0, front[k].1, front[k].2) == Err(Selected(m, front).error)
               && forall j :: 0 <= j < k ==> TripleOk(m, front, j);
      assert forall j :: 0 <= j < k ==> TripleOk(m, front, j) == TripleOk(m, triples, j);
    } else {
      SelectedOk(m, front);
      assert forall j :: 0 <= j < |front| ==> TripleOk(m, front, j) == TripleOk(m, triples, j);
      var k := |front|;
      assert FilterByProperty(m, triples[k].0, triples[k].1, triples[k].2) == Err(Selected(m, triples).error);
    }
  }

  // ----- applying the selection -----

  /** The ids of the selected journeys. */
  function SelectedIds(vjs: seq<VehicleJourney>, idxs: set<nat>): set<string>
    requires forall i :: i in idxs ==> i < |vjs|
  {
    set i | i in idxs :: vjs[i].id
  }

  /** `filter_from_idxset`: Extract keeps exactly the selected journeys, Remove exactly the
    * others, in their order. */
  function FilterFromIdxSet(vjs: seq<VehicleJourney>, idxs: set<nat>, action: Action): (r: seq<VehicleJourney>)
    requires forall i :: i in idxs ==> i < |vjs|
    ensures forall vj :: vj in r <==> vj in vjs && (vj.id in SelectedIds(vjs, idxs) <==> action == Extract)
  {
    var ids := SelectedIds(vjs, idxs);
    match action
    case Extract => Retain(vjs, (vj: VehicleJourney) => vj.id in ids)
    case Remove => Retain(vjs, (vj: VehicleJourney) => vj.id !in ids)
  }

  /** `updated_stop_time_attributes`: only the entries of journeys still present remain,
    * with their values. */
  function UpdatedStopTimeAttributes(vjs: seq<VehicleJourney>, table: StopTimeTable): (r: StopTimeTable)
    ensures forall k :: k in r <==> k in table && k.0 in IdSet(vjs, JourneyKey)
    ensures forall k :: k in r ==> r[k] == table[k]
  {
    map k | k in table && k.0 in IdSet(vjs, JourneyKey) :: table[k]
  }

  const EmptyMessage := "the data does not contain vehicle journeys anymore."

  /** `filter`: select, keep or drop the journeys, clean the three side tables, and fail if no
    * journey is left. */
  function FilterModel(m: Model, action: Action, filters: Filters): Result<Model, string>
  {
    var selected :- Selected(m, Visited(filters));
    var vjs := FilterFromIdxSet(m.vehicle_journeys, selected, action);
    var m' := m.(vehicle_journeys := vjs,
                 stop_time_ids := UpdatedStopTimeAttributes(vjs, m.stop_time_ids),
                 stop_time_headsigns := UpdatedStopTimeAttributes(vjs, m.stop_time_headsigns),
                 stop_time_comments := UpdatedStopTimeAttributes(vjs, m.stop_time_comments));
    if vjs == [] then Err(EmptyMessage) else Ok(m')
  }

  /** A successful filtering keeps at least one journey, keeps exactly the selected ones
    * (Extract) or exactly the others (Remove), changes nothing but the journeys and the
    * side tables, and leaves no side-table entry whose journey is gone. */
  lemma FilterModelSpec(m: Model, action: Action, filters: Filters)
    requires FilterModel(m, action, filters).Ok?
    ensures var sel := Selected(m, Visited(filters));
      var m' := FilterModel(m, action, filters).value;
      sel.Ok? && m'.vehicle_journeys != []
      && (forall vj :: vj in m'.vehicle_journeys <==>
            vj in m.vehicle_journeys && (vj.id in SelectedIds(m.vehicle_journeys, sel.value) <==> action == Extract))
      && m'.networks == m.networks && m'.lines == m.lines && m'.routes == m.routes
      && (forall k :: k in m'.stop_time_ids ==> k.0 in IdSet(m'.vehicle_journeys, JourneyKey))
      && (forall k :: k in m'.stop_time_headsigns ==> k.0 in IdSet(m'.vehicle_journeys, JourneyKey))
      && (forall k :: k in m'.stop_time_comments ==> k.0 in IdSet(m'.vehicle_journeys, JourneyKey))
  {
  }

  /** The filtering fails with the error of the first failing triple, or because no journey
    * is left. */
  lemma FilterModelFails(m: Model, action: Action, filters: Filters)
    requires FilterModel(m, action, filters).Err?
    ensures var sel := Selected(m, Visited(filters));
      (sel.Err? && FilterModel(m, action, filters).error == sel.error)
      || (sel.Ok? && FilterModel(m, action, filters).error == EmptyMessage
          && FilterFromIdxSet(m.vehicle_journeys, sel.value, action) == [])
  {
  }
}
