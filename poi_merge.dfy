/** The merge of several POI archives into one (src/poi/merge.rs). Each archive holds a file of
  * POI types, a file of POIs and a file of properties; they are read in that order, archive
  * after archive, into one map of types and one map of POIs keyed by id.
  *
  * An archive is given as its three files' deserialised records, a file missing from the
  * archive being `None` and a record that does not deserialise being `Err` with the reader's
  * message. */
module PoiMerge {
  import opened Wrappers
  import Strings

  datatype PoiType = PoiType(id: string, name: string)
  datatype Property = Property(key: string, value: string)
  datatype Coord = Coord(lon: real, lat: real)
  datatype Poi = Poi(id: string, name: string, coord: Coord, poi_type_id: string, properties: seq<Property>)

  /** A record of `poi.txt`. */
  datatype ExportPoi = ExportPoi(id: string, name: string, lon: real, lat: real, type_id: string)

  /** A record of `poi_properties.txt`. */
  datatype ExportProperty = ExportProperty(poi_id: string, key: string, value: string)

  datatype Archive = Archive(poi_types: Option<seq<Result<PoiType, string>>>,
                             pois: Option<seq<Result<ExportPoi, string>>>,
                             properties: Option<seq<Result<ExportProperty, string>>>)

  /** The merged model: POIs and POI types keyed by id. */
  datatype Merge = Merge(pois: map<string, Poi>, poi_types: map<string, PoiType>)

  /** The archive reader's error for a file it does not hold. */
  const MissingEntryError := "specified file not found in archive"

  function LabelConflictError(id: string, known: string, other: string): string
  {
    "POI type " + Strings.Quoted(id) + " already found but with 2 different labels "
    + Strings.Quoted(known) + " and " + Strings.Quoted(other)
  }

  function DuplicatePoiError(id: string): string
  {
    "POI " + id + " already found"
  }

  // ----- merge_poi_types -----

  /** Every type is stored under its own id. */
  predicate Keyed(types: map<string, PoiType>)
  {
    forall k :: k in types ==> types[k].id == k
  }

  function TypeStep(types: map<string, PoiType>, row: Result<PoiType, string>): Result<map<string, PoiType>, string>
  {
    match row
    case Err(e) => Err(e)
    case Ok(t) =>
      if t.id in types then
        if types[t.id].name != t.name then Err(LabelConflictError(types[t.id].id, types[t.id].name, t.name))
        else Ok(types)
      else Ok(types[t.id := t])
  }

  /** The outcome of merging the records of `poi_type.txt` into `types`. */
  function TypesMerged(rows: seq<Result<PoiType, string>>, types: map<string, PoiType>): Result<map<string, PoiType>, string>
    decreases |rows|
  {
    if rows == [] then Ok(types)
    else
      match TypesMerged(rows[..|rows| - 1], types)
      case Err(e) => Err(e)
      case Ok(m) => TypeStep(m, rows[|rows| - 1])
  }

  /** The ids of the records that deserialise. */
  function TypeIds(rows: seq<Result<PoiType, string>>): set<string>
  {
    set i | 0 <= i < |rows| && rows[i].Ok? :: rows[i].value.id
  }

  lemma TypeIdsSnoc(rows: seq<Result<PoiType, string>>)
    requires rows != [] && rows[|rows| - 1].Ok?
    ensures TypeIds(rows) == TypeIds(rows[..|rows| - 1]) + {rows[|rows| - 1].value.id}
  {
    var front := rows[..|rows| - 1];
    assert forall i :: 0 <= i < |front| ==> front[i] == rows[i];
  }

  /** Types that agree with `types`: every record deserialises, and a record's id names the
    * same label in `types` and in every other record. */
  predicate TypesAgree(rows: seq<Result<PoiType, string>>, types: map<string, PoiType>)
  {
    (forall i :: 0 <= i < |rows| ==> rows[i].Ok?)
    && (forall i :: 0 <= i < |rows| && rows[i].Ok? && rows[i].value.id in types ==>
          types[rows[i].value.id].name == rows[i].value.name)
    && (forall i, j :: 0 <= i < j < |rows| && rows[i].Ok? && rows[j].Ok? && rows[i].value.id == rows[j].value.id ==>
          rows[i].value.name == rows[j].value.name)
  }

  lemma TypesAgreeSnoc(rows: seq<Result<PoiType, string>>, types: map<string, PoiType>, m: map<string, PoiType>)
    requires rows != [] && Keyed(types)
    requires TypesAgree(rows[..|rows| - 1], types)
    requires m.Keys == types.Keys + TypeIds(rows[..|rows| - 1])
    requires forall k :: k in types ==> m[k] == types[k]
    requires forall i :: 0 <= i < |rows| - 1 ==> m[rows[i].value.id] == rows[i].value
    ensures TypesAgree(rows, types) <==>
      rows[|rows| - 1].Ok? && (rows[|rows| - 1].value.id in m ==> m[rows[|rows| - 1].value.id].name == rows[|rows| - 1].value.name)
  {
    var front := rows[..|rows| - 1];
    var n := |rows| - 1;
    assert forall i :: 0 <= i < n ==> front[i] == rows[i];
    if rows[n].Ok? {
      var t := rows[n].value;
      if t.id in m && t.id !in types {
        var i :| 0 <= i < n && front[i].Ok? && front[i].value.id == t.id;
        assert m[t.id] == rows[i].value;
      }
      if TypesAgree(rows, types) && t.id in m && t.id !in types {
        var i :| 0 <= i < n && front[i].Ok? && front[i].value.id == t.id;
        assert rows[i].value.name == t.name;
      }
      if t.id in m ==> m[t.id].name == t.name {
        forall i, j | 0 <= i < j < |rows| && rows[i].Ok? && rows[j].Ok? && rows[i].value.id == rows[j].value.id
          ensures rows[i].value.name == rows[j].value.name
        {
          if j == n {
            assert rows[i].value.id in TypeIds(front) by { assert front[i] == rows[i]; }
          }
        }
      }
    }
  }

  /** One accepted type keeps the known ones and adds at most its own id. */
  lemma TypeStepSpec(m: map<string, PoiType>, t: PoiType, r: map<string, PoiType>)
    requires Keyed(m) && TypeStep(m, Ok(t)) == Ok(r)
    ensures Keyed(r) && r.Keys == m.Keys + {t.id}
    ensures forall k :: k in m ==> r[k] == m[k]
  {
  }

  lemma TypesValueSnoc(rows: seq<Result<PoiType, string>>, front: seq<Result<PoiType, string>>, m: map<string, PoiType>, r: map<string, PoiType>)
    requires rows != [] && Keyed(m) && (forall i :: 0 <= i < |rows| ==> rows[i].Ok?)
    requires front == rows[..|rows| - 1]
    requires forall i :: 0 <= i < |front| ==> front[i].value.id in m && m[front[i].value.id] == front[i].value
    requires TypeStep(m, rows[|rows| - 1]) == Ok(r)
    ensures forall i :: 0 <= i < |rows| ==> r[rows[i].value.id] == rows[i].value
  {
    forall i | 0 <= i < |rows| ensures r[rows[i].value.id] == rows[i].value {
      if i < |front| {
        assert front[i] == rows[i];
      }
    }
  }

  /** After types are merged, every record deserialised, the known types are kept and every
    * record's id holds that record's type. */
  lemma {:induction false} TypesMergedValue(rows: seq<Result<PoiType, string>>, types: map<string, PoiType>)
    requires Keyed(types) && TypesMerged(rows, types).Ok?
    ensures forall i :: 0 <= i < |rows| ==> rows[i].Ok?
    ensures Keyed(TypesMerged(rows, types).value)
    ensures TypesMerged(rows, types).value.Keys == types.Keys + TypeIds(rows)
    ensures forall k :: k in types ==> TypesMerged(rows, types).value[k] == types[k]
    ensures forall i :: 0 <= i < |rows| ==> TypesMerged(rows, types).value[rows[i].value.id] == rows[i].value
    decreases |rows|
  {
    if rows != [] {
      var front := rows[..|rows| - 1];
      var n := |rows| - 1;
      var m := TypesMerged(front, types).value;
      TypesMergedValue(front, types);
      assert TypesMerged(rows, types) == TypeStep(m, rows[n]);
      assert forall i :: 0 <= i < n ==> front[i] == rows[i];
      TypeIdsSnoc(rows);
      TypeStepSpec(m, rows[n].value, TypeStep(m, rows[n]).value);
      TypesValueSnoc(rows, front, m, TypeStep(m, rows[n]).value);
    }
  }

  /** Merging types succeeds exactly when they agree with the known ones. */
  lemma {:induction false} TypesMergedOk(rows: seq<Result<PoiType, string>>, types: map<string, PoiType>)
    requires Keyed(types)
    ensures TypesMerged(rows, types).Ok? <==> TypesAgree(rows, types)
    decreases |rows|
  {
    if rows != [] {
      var front := rows[..|rows| - 1];
      var n := |rows| - 1;
      TypesMergedOk(front, types);
      var prev := TypesMerged(front, types);
      if prev.Ok? {
        TypesMergedValue(front, types);
        TypesAgreeSnoc(rows, types, prev.value);
      } else {
        assert !TypesAgree(rows, types) by {
          assert forall i :: 0 <= i < n ==> front[i] == rows[i];
        }
      }
    }
  }

  /** Merging types succeeds exactly when they agree with the known ones; the known types are
    * then kept and every new id is inserted with its record's label. */
  lemma TypesMergedSpec(rows: seq<Result<PoiType, string>>, types: map<string, PoiType>)
    requires Keyed(types)
    ensures TypesMerged(rows, types).Ok? <==> TypesAgree(rows, types)
    ensures TypesMerged(rows, types).Ok? ==>
      Keyed(TypesMerged(rows, types).value)
      && TypesMerged(rows, types).value.Keys == types.Keys + TypeIds(rows)
      && (forall k :: k in types ==> TypesMerged(rows, types).value[k] == types[k])
      && forall i :: 0 <= i < |rows| ==> TypesMerged(rows, types).value[rows[i].value.id] == rows[i].value
  {
    TypesMergedOk(rows, types);
    if TypesMerged(rows, types).Ok? {
      TypesMergedValue(rows, types);
    }
  }

  /** A type met again with another label is refused, quoting both labels. */
  lemma LabelConflict(a: PoiType, b: PoiType)
    requires a.id == b.id && a.name != b.name
    ensures TypesMerged([Ok(a), Ok(b)], map[]) == Err(LabelConflictError(a.id, a.name, b.name))
  {
    var one: seq<Result<PoiType, string>> := [Ok(a)];
    var two: seq<Result<PoiType, string>> := [Ok(a), Ok(b)];
    assert two[..1] == one;
    assert one[..0] == [];
    assert TypesMerged(one, map[]) == Ok(map[a.id := a]);
  }

  lemma {:induction false} TypesMergedStopped(rows: seq<Result<PoiType, string>>, types: map<string, PoiType>, n: nat)
    requires n <= |rows| && TypesMerged(rows[..n], types).Err?
    ensures TypesMerged(rows, types) == TypesMerged(rows[..n], types)
    decreases |rows|
  {
    if n < |rows| {
      assert rows[..|rows| - 1][..n] == rows[..n];
      TypesMergedStopped(rows[..|rows| - 1], types, n);
    } else {
      assert rows[..n] == rows;
    }
  }

  /** `merge_poi_types`. */
  method MergePoiTypes(rows: seq<Result<PoiType, string>>, types: map<string, PoiType>)
    returns (r: Result<map<string, PoiType>, string>)
    ensures r == TypesMerged(rows, types)
  {
    var poi_types := types;
    for k := 0 to |rows|
      invariant TypesMerged(rows[..k], types) == Ok(poi_types)
    {
      assert rows[..k + 1][..k] == rows[..k];
      if rows[k].Err? {
        TypesMergedStopped(rows, types, k + 1);
        return Err(rows[k].error);
      }
      var poi_type := rows[k].value;
      if poi_type.id in poi_types {
        if poi_types[poi_type.id].name != poi_type.name {
          TypesMergedStopped(rows, types, k + 1);
          return Err(LabelConflictError(poi_types[poi_type.id].id, poi_types[poi_type.id].name, poi_type.name));
        }
      } else {
        poi_types := poi_types[poi_type.id := poi_type];
      }
    }
    assert rows[..|rows|] == rows;
    r := Ok(poi_types);
  }

  // ----- merge_pois -----

  /** A POI as read, with no property yet. */
  function PoiOf(e: ExportPoi): Poi
  {
    Poi(e.id, e.name, Coord(e.lon, e.lat), e.type_id, [])
  }

  function PoiStep(pois: map<string, Poi>, row: Result<ExportPoi, string>): Result<map<string, Poi>, string>
  {
    match row
    case Err(e) => Err(e)
    case Ok(p) => if p.id in pois then Err(DuplicatePoiError(p.id)) else Ok(pois[p.id := PoiOf(p)])
  }

  /** The outcome of merging the records of `poi.txt` into `pois`. */
  function PoisMerged(rows: seq<Result<ExportPoi, string>>, pois: map<string, Poi>): Result<map<string, Poi>, string>
    decreases |rows|
  {
    if rows == [] then Ok(pois)
    else
      match PoisMerged(rows[..|rows| - 1], pois)
      case Err(e) => Err(e)
      case Ok(m) => PoiStep(m, rows[|rows| - 1])
  }

  function PoiIds(rows: seq<Result<ExportPoi, string>>): set<string>
  {
    set i | 0 <= i < |rows| && rows[i].Ok? :: rows[i].value.id
  }

  lemma PoiIdsSnoc(rows: seq<Result<ExportPoi, string>>)
    requires rows != [] && rows[|rows| - 1].Ok?
    ensures PoiIds(rows) == PoiIds(rows[..|rows| - 1]) + {rows[|rows| - 1].value.id}
  {
    var front := rows[..|rows| - 1];
    assert forall i :: 0 <= i < |front| ==> front[i] == rows[i];
  }

  /** New POIs: every record deserialises, and its id is neither known nor repeated. */
  predicate PoisFresh(rows: seq<Result<ExportPoi, string>>, pois: map<string, Poi>)
  {
    (forall i :: 0 <= i < |rows| ==> rows[i].Ok? && rows[i].value.id !in pois)
    && forall i, j :: 0 <= i < j < |rows| && rows[i].Ok? && rows[j].Ok? ==> rows[i].value.id != rows[j].value.id
  }

  lemma PoisFreshSnoc(rows: seq<Result<ExportPoi, string>>, pois: map<string, Poi>)
    requires rows != []
    ensures PoisFresh(rows, pois) <==>
      PoisFresh(rows[..|rows| - 1], pois) && rows[|rows| - 1].Ok?
      && rows[|rows| - 1].value.id !in pois.Keys + PoiIds(rows[..|rows| - 1])
  {
    var front := rows[..|rows| - 1];
    var n := |rows| - 1;
    assert forall i :: 0 <= i < n ==> front[i] == rows[i];
    if PoisFresh(front, pois) && rows[n].Ok? && rows[n].value.id !in pois.Keys + PoiIds(front) {
      forall i, j | 0 <= i < j < |rows| && rows[i].Ok? && rows[j].Ok? ensures rows[i].value.id != rows[j].value.id {
        if j == n {
          assert rows[i].value.id in PoiIds(front) by { assert front[i] == rows[i]; }
        }
      }
    }
  }

  lemma PoisValueSnoc(rows: seq<Result<ExportPoi, string>>, front: seq<Result<ExportPoi, string>>,
                      m: map<string, Poi>, r: map<string, Poi>)
    requires rows != [] && (forall i :: 0 <= i < |rows| ==> rows[i].Ok?)
    requires front == rows[..|rows| - 1]
    requires forall i :: 0 <= i < |front| ==> front[i].value.id in m && m[front[i].value.id] == PoiOf(front[i].value)
    requires PoiStep(m, rows[|rows| - 1]) == Ok(r)
    ensures forall i :: 0 <= i < |rows| ==> r[rows[i].value.id] == PoiOf(rows[i].value)
  {
    forall i | 0 <= i < |rows| ensures r[rows[i].value.id] == PoiOf(rows[i].value) {
      if i < |front| {
        assert front[i] == rows[i];
      }
    }
  }

  /** Merging POIs succeeds exactly when they are all new; the known POIs are then kept and
    * each record is inserted under its id, with no property. */
  lemma {:induction false} PoisMergedSpec(rows: seq<Result<ExportPoi, string>>, pois: map<string, Poi>)
    ensures PoisMerged(rows, pois).Ok? <==> PoisFresh(rows, pois)
    ensures PoisMerged(rows, pois).Ok? ==>
      PoisMerged(rows, pois).value.Keys == pois.Keys + PoiIds(rows)
      && (forall k :: k in pois ==> PoisMerged(rows, pois).value[k] == pois[k])
      && forall i :: 0 <= i < |rows| ==>
           PoisMerged(rows, pois).value[rows[i].value.id] == PoiOf(rows[i].value)
           && PoisMerged(rows, pois).value[rows[i].value.id].properties == []
    decreases |rows|
  {
    if rows != [] {
      var front := rows[..|rows| - 1];
      var n := |rows| - 1;
      PoisMergedSpec(front, pois);
      PoisFreshSnoc(rows, pois);
      if PoisMerged(front, pois).Ok? && rows[n].Ok? {
        PoiIdsSnoc(rows);
        var m := PoisMerged(front, pois).value;
        assert PoisMerged(rows, pois) == PoiStep(m, rows[n]);
        if PoisMerged(rows, pois).Ok? {
          PoisValueSnoc(rows, front, m, PoisMerged(rows, pois).value);
        }
      }
    }
  }

  lemma {:induction false} PoisMergedStopped(rows: seq<Result<ExportPoi, string>>, pois: map<string, Poi>, n: nat)
    requires n <= |rows| && PoisMerged(rows[..n], pois).Err?
    ensures PoisMerged(rows, pois) == PoisMerged(rows[..n], pois)
    decreases |rows|
  {
    if n < |rows| {
      assert rows[..|rows| - 1][..n] == rows[..n];
      PoisMergedStopped(rows[..|rows| - 1], pois, n);
    } else {
      assert rows[..n] == rows;
    }
  }

  /** `merge_pois`. */
  method MergePois(rows: seq<Result<ExportPoi, string>>, pois: map<string, Poi>)
    returns (r: Result<map<string, Poi>, string>)
    ensures r == PoisMerged(rows, pois)
  {
    var merged := pois;
    for k := 0 to |rows|
      invariant PoisMerged(rows[..k], pois) == Ok(merged)
    {
      assert rows[..k + 1][..k] == rows[..k];
      if rows[k].Err? {
        PoisMergedStopped(rows, pois, k + 1);
        return Err(rows[k].error);
      }
      var p := PoiOf(rows[k].value);
      if p.id in merged {
        PoisMergedStopped(rows, pois, k + 1);
        return Err(DuplicatePoiError(p.id));
      }
      merged := merged[p.id := p];
    }
    assert rows[..|rows|] == rows;
    r := Ok(merged);
  }

  // ----- add_props -----

  function PropertyOf(e: ExportProperty): Property
  {
    Property(e.key, e.value)
  }

  /** One property record: appended to its POI unless the POI already has it; a record for an
    * unknown POI changes nothing. */
  function PropStep(pois: map<string, Poi>, row: Result<ExportProperty, string>): Result<map<string, Poi>, string>
  {
    match row
    case Err(e) => Err(e)
    case Ok(e) =>
      if e.poi_id in pois && PropertyOf(e) !in pois[e.poi_id].properties then
        Ok(pois[e.poi_id := pois[e.poi_id].(properties := pois[e.poi_id].properties + [PropertyOf(e)])])
      else Ok(pois)
  }

  /** The outcome of adding the records of `poi_properties.txt` to `pois`. */
  function PropsAdded(rows: seq<Result<ExportProperty, string>>, pois: map<string, Poi>): Result<map<string, Poi>, string>
    decreases |rows|
  {
    if rows == [] then Ok(pois)
    else
      match PropsAdded(rows[..|rows| - 1], pois)
      case Err(e) => Err(e)
      case Ok(m) => PropStep(m, rows[|rows| - 1])
  }

  /** A list of properties without repetition. */
  predicate Distinct(props: seq<Property>)
  {
    forall i, j :: 0 <= i < j < |props| ==> props[i] != props[j]
  }

  /** The property records addressed to POI `id`. */
  predicate Addressed(rows: seq<Result<ExportProperty, string>>, id: string, p: Property)
  {
    exists i :: 0 <= i < |rows| && rows[i].Ok? && rows[i].value.poi_id == id && PropertyOf(rows[i].value) == p
  }

  /** What adding properties promises about one POI: only its properties change, growing at
    * the end, by exactly the properties addressed to it, each once. */
  ghost predicate Extended(before: Poi, after: Poi, rows: seq<Result<ExportProperty, string>>, id: string)
  {
    after.(properties := before.properties) == before
    && |before.properties| <= |after.properties|
    && after.properties[..|before.properties|] == before.properties
    && (forall p :: p in after.properties <==> p in before.properties || Addressed(rows, id, p))
    && (Distinct(before.properties) ==> Distinct(after.properties))
  }

  lemma ExtendedStep(before: Poi, mid: Poi, rows: seq<Result<ExportProperty, string>>, id: string, after: Poi)
    requires rows != [] && rows[|rows| - 1].Ok?
    requires Extended(before, mid, rows[..|rows| - 1], id)
    requires rows[|rows| - 1].value.poi_id == id && PropertyOf(rows[|rows| - 1].value) !in mid.properties
    requires after == mid.(properties := mid.properties + [PropertyOf(rows[|rows| - 1].value)])
    ensures Extended(before, after, rows, id)
  {
    var front := rows[..|rows| - 1];
    var n := |rows| - 1;
    var q := PropertyOf(rows[n].value);
    assert after.properties[..|before.properties|] == mid.properties[..|before.properties|];
    forall p ensures p in after.properties <==> p in before.properties || Addressed(rows, id, p) {
      if Addressed(front, id, p) {
        var i :| 0 <= i < |front| && front[i].Ok? && front[i].value.poi_id == id && PropertyOf(front[i].value) == p;
        assert rows[i] == front[i];
      }
      if Addressed(rows, id, p) && p != q {
        var i :| 0 <= i < |rows| && rows[i].Ok? && rows[i].value.poi_id == id && PropertyOf(rows[i].value) == p;
        assert front[i] == rows[i];
        assert Addressed(front, id, p);
      }
      assert Addressed(rows, id, q);
    }
  }

  lemma ExtendedSkip(before: Poi, mid: Poi, rows: seq<Result<ExportProperty, string>>, id: string)
    requires rows != [] && rows[|rows| - 1].Ok?
    requires Extended(before, mid, rows[..|rows| - 1], id)
    requires rows[|rows| - 1].value.poi_id != id || PropertyOf(rows[|rows| - 1].value) in mid.properties
    ensures Extended(before, mid, rows, id)
  {
    var front := rows[..|rows| - 1];
    forall p ensures p in mid.properties <==> p in before.properties || Addressed(rows, id, p) {
      if Addressed(front, id, p) {
        var i :| 0 <= i < |front| && front[i].Ok? && front[i].value.poi_id == id && PropertyOf(front[i].value) == p;
        assert rows[i] == front[i];
      }
      if Addressed(rows, id, p) && !Addressed(front, id, p) {
        var i :| 0 <= i < |rows| && rows[i].Ok? && rows[i].value.poi_id == id && PropertyOf(rows[i].value) == p;
      }
    }
  }

  lemma PropsExtendedSnoc(rows: seq<Result<ExportProperty, string>>, pois: map<string, Poi>,
                          m: map<string, Poi>, r: map<string, Poi>)
    requires rows != [] && rows[|rows| - 1].Ok?
    requires m.Keys == pois.Keys
    requires forall k :: k in pois ==> Extended(pois[k], m[k], rows[..|rows| - 1], k)
    requires PropStep(m, rows[|rows| - 1]) == Ok(r)
    ensures r.Keys == pois.Keys
    ensures forall k :: k in pois ==> Extended(pois[k], r[k], rows, k)
  {
    var e := rows[|rows| - 1].value;
    forall k | k in pois ensures Extended(pois[k], r[k], rows, k) {
      if e.poi_id == k && PropertyOf(e) !in m[k].properties {
        ExtendedStep(pois[k], m[k], rows, k, r[k]);
      } else {
        ExtendedSkip(pois[k], m[k], rows, k);
      }
    }
  }

  /** Adding properties fails only on a record that does not deserialise. Otherwise the same
    * POIs remain, and each keeps its fields and its properties, followed by the properties
    * addressed to it that it did not have, each once. */
  lemma {:induction false} PropsAddedSpec(rows: seq<Result<ExportProperty, string>>, pois: map<string, Poi>)
    ensures PropsAdded(rows, pois).Ok? <==> forall i :: 0 <= i < |rows| ==> rows[i].Ok?
    ensures PropsAdded(rows, pois).Ok? ==>
      PropsAdded(rows, pois).value.Keys == pois.Keys
      && forall k :: k in pois ==> Extended(pois[k], PropsAdded(rows, pois).value[k], rows, k)
    decreases |rows|
  {
    if rows != [] {
      var front := rows[..|rows| - 1];
      var n := |rows| - 1;
      PropsAddedSpec(front, pois);
      assert forall i :: 0 <= i < n ==> front[i] == rows[i];
      var prev := PropsAdded(front, pois);
      if prev.Ok? {
        assert PropsAdded(rows, pois) == PropStep(prev.value, rows[n]);
        if rows[n].Ok? {
          PropsExtendedSnoc(rows, pois, prev.value, PropStep(prev.value, rows[n]).value);
        }
      }
    }
  }

  lemma {:induction false} PropsAddedStopped(rows: seq<Result<ExportProperty, string>>, pois: map<string, Poi>, n: nat)
    requires n <= |rows| && PropsAdded(rows[..n], pois).Err?
    ensures PropsAdded(rows, pois) == PropsAdded(rows[..n], pois)
    decreases |rows|
  {
    if n < |rows| {
      assert rows[..|rows| - 1][..n] == rows[..n];
      PropsAddedStopped(rows[..|rows| - 1], pois, n);
    } else {
      assert rows[..n] == rows;
    }
  }

  /** `add_props`. */
  method AddProps(rows: seq<Result<ExportProperty, string>>, pois: map<string, Poi>)
    returns (r: Result<map<string, Poi>, string>)
    ensures r == PropsAdded(rows, pois)
  {
    var updated := pois;
    for k := 0 to |rows|
      invariant PropsAdded(rows[..k], pois) == Ok(updated)
    {
      assert rows[..k + 1][..k] == rows[..k];
      if rows[k].Err? {
        PropsAddedStopped(rows, pois, k + 1);
        return Err(rows[k].error);
      }
      var e := rows[k].value;
      var prop := Property(e.key, e.value);
      if e.poi_id in updated {
        var p := updated[e.poi_id];
        if prop !in p.properties {
          updated := updated[e.poi_id := p.(properties := p.properties + [prop])];
        }
      }
    }
    assert rows[..|rows|] == rows;
    r := Ok(updated);
  }

  // ----- merge -----

  /** One archive: its types, then its POIs, then its properties, each file being required
    * only when its turn comes. */
  function ArchiveMerged(a: Archive, m: Merge): Result<Merge, string>
  {
    match a.poi_types
    case None => Err(MissingEntryError)
    case Some(type_rows) =>
      match TypesMerged(type_rows, m.poi_types)
      case Err(e) => Err(e)
      case Ok(types) =>
        match a.pois
        case None => Err(MissingEntryError)
        case Some(poi_rows) =>
          match PoisMerged(poi_rows, m.pois)
          case Err(e) => Err(e)
          case Ok(pois) =>
            match a.properties
            case None => Err(MissingEntryError)
            case Some(prop_rows) =>
              match PropsAdded(prop_rows, pois)
              case Err(e) => Err(e)
              case Ok(with_props) => Ok(Merge(with_props, types))
  }

  /** The outcome of merging the archives, in order, from an empty model. */
  function Merged(archives: seq<Archive>): Result<Merge, string>
    decreases |archives|
  {
    if archives == [] then Ok(Merge(map[], map[]))
    else
      match Merged(archives[..|archives| - 1])
      case Err(e) => Err(e)
      case Ok(m) => ArchiveMerged(archives[|archives| - 1], m)
  }

  lemma {:induction false} MergedStopped(archives: seq<Archive>, n: nat)
    requires n <= |archives| && Merged(archives[..n]).Err?
    ensures Merged(archives) == Merged(archives[..n])
    decreases |archives|
  {
    if n < |archives| {
      assert archives[..|archives| - 1][..n] == archives[..n];
      MergedStopped(archives[..|archives| - 1], n);
    } else {
      assert archives[..n] == archives;
    }
  }

  /** One turn of `merge`'s loop: the three files of one archive. */
  method MergeArchive(a: Archive, m: Merge) returns (r: Result<Merge, string>)
    ensures r == ArchiveMerged(a, m)
  {
    if a.poi_types.None? {
      return Err(MissingEntryError);
    }
    var types := MergePoiTypes(a.poi_types.value, m.poi_types);
    if types.Err? {
      return Err(types.error);
    }
    if a.pois.None? {
      return Err(MissingEntryError);
    }
    var pois := MergePois(a.pois.value, m.pois);
    if pois.Err? {
      return Err(pois.error);
    }
    if a.properties.None? {
      return Err(MissingEntryError);
    }
    var with_props := AddProps(a.properties.value, pois.value);
    if with_props.Err? {
      return Err(with_props.error);
    }
    r := Ok(Merge(with_props.value, types.value));
  }

  /** `merge`; the model's POIs and POI types are the values of the two maps. */
  method MergeArchives(archives: seq<Archive>) returns (r: Result<Merge, string>)
    ensures r == Merged(archives)
  {
    var merged := Merge(map[], map[]);
    for k := 0 to |archives|
      invariant Merged(archives[..k]) == Ok(merged)
    {
      assert archives[..k + 1][..k] == archives[..k];
      var next := MergeArchive(archives[k], merged);
      if next.Err? {
        MergedStopped(archives, k + 1);
        return next;
      }
      merged := next.value;
    }
    assert archives[..|archives|] == archives;
    r := Ok(merged);
  }

  /** The POI ids of an archive. */
  function ArchivePoiIds(a: Archive): set<string>
  {
    if a.pois.Some? then PoiIds(a.pois.value) else {}
  }

  /** One archive succeeds exactly when its three files are there, its types agree with the
    * known ones, its POIs are all new and its properties all deserialise. The POI ids are
    * then the known ones and the archive's, and every type stays stored under its id. */
  lemma ArchiveMergedSpec(a: Archive, m: Merge)
    requires Keyed(m.poi_types)
    ensures ArchiveMerged(a, m).Ok? <==>
      a.poi_types.Some? && a.pois.Some? && a.properties.Some?
      && TypesAgree(a.poi_types.value, m.poi_types) && PoisFresh(a.pois.value, m.pois)
      && forall i :: 0 <= i < |a.properties.value| ==> a.properties.value[i].Ok?
    ensures ArchiveMerged(a, m).Ok? ==>
      ArchiveMerged(a, m).value.pois.Keys == m.pois.Keys + ArchivePoiIds(a)
      && Keyed(ArchiveMerged(a, m).value.poi_types)
  {
    if a.poi_types.Some? {
      TypesMergedSpec(a.poi_types.value, m.poi_types);
      if a.pois.Some? {
        PoisMergedSpec(a.pois.value, m.pois);
        var pm := PoisMerged(a.pois.value, m.pois);
        if pm.Ok? && a.properties.Some? {
          PropsAddedSpec(a.properties.value, pm.value);
        }
      }
    }
  }

  /** The POI ids of all the archives. */
  function AllPoiIds(archives: seq<Archive>): set<string>
    decreases |archives|
  {
    if archives == [] then {}
    else AllPoiIds(archives[..|archives| - 1]) + ArchivePoiIds(archives[|archives| - 1])
  }

  lemma {:induction false} AllPoiIdsHas(archives: seq<Archive>, i: nat)
    requires i < |archives|
    ensures ArchivePoiIds(archives[i]) <= AllPoiIds(archives)
    decreases |archives|
  {
    if i < |archives| - 1 {
      AllPoiIdsHas(archives[..|archives| - 1], i);
    }
  }

  /** After a successful merge the POI ids are those of all the archives, and every type is
    * stored under its id. */
  lemma {:induction false} MergedKeys(archives: seq<Archive>)
    requires Merged(archives).Ok?
    ensures Keyed(Merged(archives).value.poi_types)
    ensures Merged(archives).value.pois.Keys == AllPoiIds(archives)
    decreases |archives|
  {
    if archives != [] {
      var front := archives[..|archives| - 1];
      MergedKeys(front);
      ArchiveMergedSpec(archives[|archives| - 1], Merged(front).value);
    }
  }

  /** After a successful merge no POI id appears in two archives. */
  lemma {:induction false} MergedPoiIdsDisjoint(archives: seq<Archive>)
    requires Merged(archives).Ok?
    ensures forall i, j :: 0 <= i < j < |archives| ==> ArchivePoiIds(archives[i]) !! ArchivePoiIds(archives[j])
    decreases |archives|
  {
    if archives != [] {
      var front := archives[..|archives| - 1];
      var n := |archives| - 1;
      MergedPoiIdsDisjoint(front);
      MergedKeys(front);
      var m := Merged(front).value;
      var a := archives[n];
      ArchiveMergedSpec(a, m);
      forall i, j | 0 <= i < j < |archives| ensures ArchivePoiIds(archives[i]) !! ArchivePoiIds(archives[j]) {
        assert front[i] == archives[i];
        if j == n {
          AllPoiIdsHas(front, i);
          forall id | id in ArchivePoiIds(a) ensures id !in ArchivePoiIds(archives[i]) {
            var k :| 0 <= k < |a.pois.value| && a.pois.value[k].Ok? && a.pois.value[k].value.id == id;
            assert id !in m.pois;
          }
        } else {
          assert front[j] == archives[j];
        }
      }
    }
  }

  /** A POI id already merged from an earlier archive makes a later archive fail. */
  lemma RepeatedAcrossArchives(archives: seq<Archive>, i: nat, j: nat, id: string)
    requires i < j < |archives|
    requires id in ArchivePoiIds(archives[i]) && id in ArchivePoiIds(archives[j])
    ensures Merged(archives).Err?
  {
    if Merged(archives).Ok? {
      MergedPoiIdsDisjoint(archives);
    }
  }

  /** Properties are read after the POIs of the same archive: a property addressed to one of
    * the archive's own POIs is attached to it. */
  lemma OwnPropertiesAttached(a: Archive, m: Merge, k: nat)
    requires Keyed(m.poi_types)
    requires ArchiveMerged(a, m).Ok? && a.properties.Some?
    requires k < |a.properties.value| && a.properties.value[k].Ok?
    requires a.properties.value[k].value.poi_id in ArchivePoiIds(a)
    ensures a.properties.value[k].value.poi_id in ArchiveMerged(a, m).value.pois
    ensures PropertyOf(a.properties.value[k].value)
      in ArchiveMerged(a, m).value.pois[a.properties.value[k].value.poi_id].properties
  {
    ArchiveMergedSpec(a, m);
    var pm := PoisMerged(a.pois.value, m.pois).value;
    PoisMergedSpec(a.pois.value, m.pois);
    PropsAddedSpec(a.properties.value, pm);
    var e := a.properties.value[k].value;
    assert Addressed(a.properties.value, e.poi_id, PropertyOf(e));
  }
}
