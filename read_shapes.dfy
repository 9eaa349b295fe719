/** The import of line and route shapes from OpenStreetMap (src/read_shapes.rs). A line or a
  * route that carries the code of an OSM object gets that object's shape as a new geometry,
  * unless it already has one or the shape is empty.
  *
  * The OSM extract is given as its lines and routes with their shapes; the conversion of a
  * shape into a multi-line string is a foreign library, and the geometry keeps the shape. */
module ReadShapes {
  import opened Wrappers
  import Strings
  import Ordering
  import IdCollection

  datatype Coord = Coord(lon: real, lat: real)

  /** An OSM line or route: its id and its shape, a list of ways. */
  datatype OsmObject = OsmObject(id: string, shape: seq<seq<Coord>>)

  /** A line or a route of the transit model, as far as this import sees it. */
  datatype NtfsObject = NtfsObject(id: string, codes: set<(string, string)>, geometry_id: Option<string>)

  datatype Geometry = Geometry(id: string, geometry: seq<seq<Coord>>)

  function NtfsKey(o: NtfsObject): string { o.id }
  function GeometryKey(g: Geometry): string { g.id }

  // ----- osm_objects_by_id -----

  function NoObjectsError(object_type: string): string
  {
    "no " + object_type + " found in osm"
  }

  /** The objects keyed by id, a later object replacing an earlier one with the same id, as
    * collecting pairs into a hash map does. */
  function ById(objects: seq<OsmObject>): map<string, OsmObject>
    decreases |objects|
  {
    if objects == [] then map[]
    else ById(objects[..|objects| - 1])[objects[|objects| - 1].id := objects[|objects| - 1]]
  }

  /** Object `i` is the last with its id. */
  predicate LastWithId(objects: seq<OsmObject>, i: int)
  {
    0 <= i < |objects| && forall j :: i < j < |objects| ==> objects[j].id != objects[i].id
  }

  /** Every id of the objects is a key. */
  lemma {:induction false} ByIdKeys(objects: seq<OsmObject>)
    ensures forall k :: k in ById(objects) <==> exists i :: 0 <= i < |objects| && objects[i].id == k
    decreases |objects|
  {
    if objects != [] {
      var front := objects[..|objects| - 1];
      ByIdKeys(front);
      assert forall i :: 0 <= i < |front| ==> front[i] == objects[i];
      forall k | k in ById(objects) ensures exists i :: 0 <= i < |objects| && objects[i].id == k {
        assert ById(objects) == ById(front)[objects[|objects| - 1].id := objects[|objects| - 1]];
        if k != objects[|objects| - 1].id {
          assert k in ById(front);
          var i :| 0 <= i < |front| && front[i].id == k;
          assert objects[i].id == k;
        }
      }
    }
  }

  /** Each id is mapped to the last object carrying it. */
  lemma {:induction false} ByIdLast(objects: seq<OsmObject>, i: int)
    requires LastWithId(objects, i)
    ensures objects[i].id in ById(objects) && ById(objects)[objects[i].id] == objects[i]
    decreases |objects|
  {
    var n := |objects| - 1;
    if i < n {
      var front := objects[..n];
      assert LastWithId(front, i) by {
        assert forall j :: i < j < n ==> front[j] == objects[j];
      }
      ByIdLast(front, i);
      assert objects[n].id != objects[i].id;
    }
  }

  /** `osm_objects_by_id`: an absent list is an error naming the object type. */
  function OsmObjectsById(objects: Option<seq<OsmObject>>, object_type: string): (r: Result<map<string, OsmObject>, string>)
    ensures objects.None? <==> r.Err?
    ensures r.Err? ==> r.error == NoObjectsError(object_type)
    ensures r.Ok? ==> forall k :: k in r.value <==> exists i :: 0 <= i < |objects.value| && objects.value[i].id == k
  {
    match objects
    case None => Err(NoObjectsError(object_type))
    case Some(objs) => ByIdKeys(objs); Ok(ById(objs))
  }

  // ----- populate_shapes_for_collection -----

  /** The code naming an object's OSM counterpart, e.g. `osm_line_id`. */
  function CodeKey(object_type: string): string
  {
    "osm_" + object_type + "_id"
  }

  /** The value of the first code with key `key`: codes are a sorted set of pairs, so it is the
    * smallest value among those codes. */
  function CodeValue(codes: set<(string, string)>, key: string): (r: Option<string>)
    ensures r.None? <==> forall p :: p in codes ==> p.0 != key
    ensures r.Some? ==> (key, r.value) in codes
    ensures r.Some? ==> forall v :: (key, v) in codes && v != r.value ==> Ordering.PairBelow((key, r.value), (key, v))
  {
    var values := set p | p in codes && p.0 == key :: p.1;
    assert forall v :: (key, v) in codes ==> v in values;
    if values == {} then None
    else
      Ordering.StringOrder();
      Some(Ordering.Least(values, Ordering.StringBelow))
  }

  /** The id of a generated geometry. */
  function GeoId(object_type: string, n: nat): string
  {
    "geo:" + object_type + ":osm:" + Strings.NatToString(n)
  }

  lemma GeoIdInjective(object_type: string, m: nat, n: nat)
    requires m != n
    ensures GeoId(object_type, m) != GeoId(object_type, n)
  {
    var p := "geo:" + object_type + ":osm:";
    Strings.NatToStringInjective(m, n);
    assert (p + Strings.NatToString(m))[|p|..] == Strings.NatToString(m);
    assert (p + Strings.NatToString(n))[|p|..] == Strings.NatToString(n);
  }

  /** What the loop carries: the geometries, the objects visited and the counter. */
  datatype Progress = Progress(geometries: seq<Geometry>, objects: seq<NtfsObject>, counter: nat)

  /** One object: the counter counts every object with an OSM code, and the object gets a new
    * geometry when its OSM object exists, has a shape and it has no geometry yet. */
  function Step(osm: map<string, OsmObject>, object_type: string, p: Progress, obj: NtfsObject): Progress
  {
    match CodeValue(obj.codes, CodeKey(object_type))
    case None => Progress(p.geometries, p.objects + [obj], p.counter)
    case Some(osm_id) =>
      var counter := p.counter + 1;
      if osm_id !in osm || osm[osm_id].shape == [] || obj.geometry_id.Some? then
        Progress(p.geometries, p.objects + [obj], counter)
      else
        var geo_id := GeoId(object_type, counter);
        Progress(p.geometries + [Geometry(geo_id, osm[osm_id].shape)],
                 p.objects + [obj.(geometry_id := Some(geo_id))], counter)
  }

  /** The loop over `objects`, starting from `geometries`. */
  function Populated(osm: map<string, OsmObject>, object_type: string, geometries: seq<Geometry>, objects: seq<NtfsObject>): Progress
    decreases |objects|
  {
    if objects == [] then Progress(geometries, [], 0)
    else Step(osm, object_type, Populated(osm, object_type, geometries, objects[..|objects| - 1]), objects[|objects| - 1])
  }

  /** The object carries an OSM code. */
  predicate Coded(object_type: string, obj: NtfsObject)
  {
    CodeValue(obj.codes, CodeKey(object_type)).Some?
  }

  /** The object gets a geometry: its OSM object exists with a shape, and it has none yet. */
  predicate Shaped(osm: map<string, OsmObject>, object_type: string, obj: NtfsObject)
  {
    Coded(object_type, obj)
    && CodeValue(obj.codes, CodeKey(object_type)).value in osm
    && osm[CodeValue(obj.codes, CodeKey(object_type)).value].shape != []
    && obj.geometry_id.None?
  }

  /** The number of objects carrying an OSM code. */
  function CodedCount(object_type: string, objects: seq<NtfsObject>): nat
    decreases |objects|
  {
    if objects == [] then 0
    else CodedCount(object_type, objects[..|objects| - 1]) + if Coded(object_type, objects[|objects| - 1]) then 1 else 0
  }

  /** The number of objects that get a geometry. */
  function ShapedCount(osm: map<string, OsmObject>, object_type: string, objects: seq<NtfsObject>): nat
    decreases |objects|
  {
    if objects == [] then 0
    else ShapedCount(osm, object_type, objects[..|objects| - 1]) + if Shaped(osm, object_type, objects[|objects| - 1]) then 1 else 0
  }

  /** What becomes of object `i`: a new geometry id numbered by the count of coded objects up
    * to and including it, or no change. */
  function Outcome(osm: map<string, OsmObject>, object_type: string, objects: seq<NtfsObject>, i: nat): NtfsObject
    requires i < |objects|
  {
    if Shaped(osm, object_type, objects[i]) then
      objects[i].(geometry_id := Some(GeoId(object_type, CodedCount(object_type, objects[..i + 1]))))
    else objects[i]
  }

  /** The loop keeps the geometries it started with, counts every coded object, and changes
    * each object as `Outcome` says, in order. */
  lemma {:induction false} PopulatedObjects(osm: map<string, OsmObject>, object_type: string, geometries: seq<Geometry>, objects: seq<NtfsObject>)
    ensures Populated(osm, object_type, geometries, objects).counter == CodedCount(object_type, objects)
    ensures |Populated(osm, object_type, geometries, objects).objects| == |objects|
    ensures forall i :: 0 <= i < |objects| ==>
      Populated(osm, object_type, geometries, objects).objects[i] == Outcome(osm, object_type, objects, i)
    decreases |objects|
  {
    if objects != [] {
      var front := objects[..|objects| - 1];
      var n := |objects| - 1;
      PopulatedObjects(osm, object_type, geometries, front);
      var p := Populated(osm, object_type, geometries, objects);
      forall i | 0 <= i < |objects| ensures p.objects[i] == Outcome(osm, object_type, objects, i) {
        if i < n {
          assert front[..i + 1] == objects[..i + 1];
          assert front[i] == objects[i];
        } else {
          assert objects[..i + 1] == objects;
        }
      }
    }
  }

  /** `g` is the geometry object `i` receives: its new id and the shape of its OSM object. */
  predicate GeometryOf(osm: map<string, OsmObject>, object_type: string, objects: seq<NtfsObject>, i: int, g: Geometry)
  {
    0 <= i < |objects| && Shaped(osm, object_type, objects[i])
    && g == Geometry(Outcome(osm, object_type, objects, i).geometry_id.value,
                     osm[CodeValue(objects[i].codes, CodeKey(object_type)).value].shape)
  }

  /** `g` is the geometry some object receives. */
  predicate FromSomeObject(osm: map<string, OsmObject>, object_type: string, objects: seq<NtfsObject>, g: Geometry)
  {
    exists i :: 0 <= i < |objects| && GeometryOf(osm, object_type, objects, i, g)
  }

  /** Some geometry from index `from` on has id `id`. */
  predicate HasGeometry(gs: seq<Geometry>, from: int, id: string)
  {
    exists j :: 0 <= from <= j < |gs| && gs[j].id == id
  }

  /** The geometry an object receives is the same once more objects follow it. */
  lemma GeometryOfPrefix(osm: map<string, OsmObject>, object_type: string, objects: seq<NtfsObject>, n: nat, i: int, g: Geometry)
    requires n <= |objects| && GeometryOf(osm, object_type, objects[..n], i, g)
    ensures GeometryOf(osm, object_type, objects, i, g)
  {
    assert objects[..n][..i + 1] == objects[..i + 1];
  }

  /** The new geometries come after the old ones, one per object that gets a geometry, each
    * carrying the id that object received and the shape of its OSM object. */
  lemma {:induction false} PopulatedGeometries(osm: map<string, OsmObject>, object_type: string, geometries: seq<Geometry>, objects: seq<NtfsObject>)
    ensures |Populated(osm, object_type, geometries, objects).geometries| == |geometries| + ShapedCount(osm, object_type, objects)
    ensures Populated(osm, object_type, geometries, objects).geometries[..|geometries|] == geometries
    ensures forall j :: |geometries| <= j < |Populated(osm, object_type, geometries, objects).geometries| ==>
      FromSomeObject(osm, object_type, objects, Populated(osm, object_type, geometries, objects).geometries[j])
    decreases |objects|
  {
    if objects != [] {
      var front := objects[..|objects| - 1];
      var n := |objects| - 1;
      PopulatedGeometries(osm, object_type, geometries, front);
      PopulatedObjects(osm, object_type, geometries, front);
      var q := Populated(osm, object_type, geometries, front);
      var p := Populated(osm, object_type, geometries, objects);
      assert p == Step(osm, object_type, q, objects[n]);
      assert forall j :: 0 <= j < |q.geometries| ==> p.geometries[j] == q.geometries[j];
      assert p.geometries[..|geometries|] == q.geometries[..|geometries|];
      forall j | |geometries| <= j < |p.geometries|
        ensures FromSomeObject(osm, object_type, objects, p.geometries[j])
      {
        if j < |q.geometries| {
          var i :| 0 <= i < |front| && GeometryOf(osm, object_type, front, i, q.geometries[j]);
          GeometryOfPrefix(osm, object_type, objects, n, i, q.geometries[j]);
        } else {
          assert objects[..n + 1] == objects;
          assert GeometryOf(osm, object_type, objects, n, p.geometries[j]);
        }
      }
    }
  }

  /** A step keeps the geometries it is given, in front. */
  lemma StepKeeps(osm: map<string, OsmObject>, object_type: string, q: Progress, obj: NtfsObject)
    ensures |q.geometries| <= |Step(osm, object_type, q, obj).geometries|
    ensures forall j :: 0 <= j < |q.geometries| ==> Step(osm, object_type, q, obj).geometries[j] == q.geometries[j]
  {
  }

  /** The last object, when it gets a geometry, finds it at the end. */
  lemma CoverLast(osm: map<string, OsmObject>, object_type: string, geometries: seq<Geometry>, objects: seq<NtfsObject>)
    requires objects != [] && Shaped(osm, object_type, objects[|objects| - 1])
    ensures HasGeometry(Populated(osm, object_type, geometries, objects).geometries, |geometries|,
                        Outcome(osm, object_type, objects, |objects| - 1).geometry_id.value)
  {
    var n := |objects| - 1;
    var front := objects[..n];
    PopulatedObjects(osm, object_type, geometries, front);
    PopulatedGeometries(osm, object_type, geometries, front);
    var q := Populated(osm, object_type, geometries, front);
    var p := Populated(osm, object_type, geometries, objects);
    assert p == Step(osm, object_type, q, objects[n]);
    assert objects[..n + 1] == objects;
    assert p.geometries[|q.geometries|].id == Outcome(osm, object_type, objects, n).geometry_id.value;
  }

  /** Every object that gets a geometry finds it among the new ones. */
  lemma {:induction false} PopulatedGeometriesCover(osm: map<string, OsmObject>, object_type: string, geometries: seq<Geometry>, objects: seq<NtfsObject>)
    ensures forall i :: 0 <= i < |objects| && Shaped(osm, object_type, objects[i]) ==>
      HasGeometry(Populated(osm, object_type, geometries, objects).geometries, |geometries|,
                  Outcome(osm, object_type, objects, i).geometry_id.value)
    decreases |objects|
  {
    if objects != [] {
      var front := objects[..|objects| - 1];
      var n := |objects| - 1;
      PopulatedGeometriesCover(osm, object_type, geometries, front);
      var q := Populated(osm, object_type, geometries, front);
      var p := Populated(osm, object_type, geometries, objects);
      assert p == Step(osm, object_type, q, objects[n]);
      StepKeeps(osm, object_type, q, objects[n]);
      forall i | 0 <= i < |objects| && Shaped(osm, object_type, objects[i])
        ensures HasGeometry(p.geometries, |geometries|, Outcome(osm, object_type, objects, i).geometry_id.value)
      {
        if i < n {
          assert front[..i + 1] == objects[..i + 1] && front[i] == objects[i];
          var j :| |geometries| <= j < |q.geometries| && q.geometries[j].id == Outcome(osm, object_type, front, i).geometry_id.value;
          assert p.geometries[j] == q.geometries[j];
        } else {
          CoverLast(osm, object_type, geometries, objects);
        }
      }
    }
  }

  /** `id` is the id of a geometry numbered at most `counter`. */
  predicate NumberedUpTo(object_type: string, id: string, counter: nat)
  {
    exists c: nat :: 1 <= c <= counter && id == GeoId(object_type, c)
  }

  /** A later number differs from every earlier one. */
  lemma NumberedBelow(object_type: string, id: string, counter: nat, bound: nat)
    requires NumberedUpTo(object_type, id, counter)
    ensures counter <= bound ==> NumberedUpTo(object_type, id, bound)
    ensures id != GeoId(object_type, counter + 1)
  {
    var c: nat :| 1 <= c <= counter && id == GeoId(object_type, c);
    GeoIdInjective(object_type, c, counter + 1);
  }

  /** The ids of the new geometries are pairwise distinct, each numbered at most by the
    * count of coded objects. */
  lemma {:induction false} PopulatedIdsDistinct(osm: map<string, OsmObject>, object_type: string, geometries: seq<Geometry>, objects: seq<NtfsObject>)
    ensures |geometries| <= |Populated(osm, object_type, geometries, objects).geometries|
    ensures forall j :: |geometries| <= j < |Populated(osm, object_type, geometries, objects).geometries| ==>
      NumberedUpTo(object_type, Populated(osm, object_type, geometries, objects).geometries[j].id,
                   Populated(osm, object_type, geometries, objects).counter)
    ensures forall j, k :: |geometries| <= j < k < |Populated(osm, object_type, geometries, objects).geometries| ==>
      Populated(osm, object_type, geometries, objects).geometries[j].id
        != Populated(osm, object_type, geometries, objects).geometries[k].id
    decreases |objects|
  {
    if objects != [] {
      var front := objects[..|objects| - 1];
      PopulatedIdsDistinct(osm, object_type, geometries, front);
      var q := Populated(osm, object_type, geometries, front);
      var p := Populated(osm, object_type, geometries, objects);
      assert p == Step(osm, object_type, q, objects[|objects| - 1]);
      assert q.counter <= p.counter;
      forall j | |geometries| <= j < |q.geometries|
        ensures p.geometries[j] == q.geometries[j]
        ensures NumberedUpTo(object_type, p.geometries[j].id, p.counter)
        ensures |p.geometries| > |q.geometries| ==> p.geometries[j].id != p.geometries[|q.geometries|].id
      {
        NumberedBelow(object_type, q.geometries[j].id, q.counter, p.counter);
      }
      if |p.geometries| > |q.geometries| {
        assert p.geometries[|q.geometries|].id == GeoId(object_type, p.counter);
      }
    }
  }

  /** An object that already has a geometry, or whose OSM object is missing or has no shape,
    * is left as it was. */
  lemma UnshapedUnchanged(osm: map<string, OsmObject>, object_type: string, geometries: seq<Geometry>, objects: seq<NtfsObject>, i: nat)
    requires i < |objects| && !Shaped(osm, object_type, objects[i])
    ensures |Populated(osm, object_type, geometries, objects).objects| == |objects|
    ensures Populated(osm, object_type, geometries, objects).objects[i] == objects[i]
  {
    PopulatedObjects(osm, object_type, geometries, objects);
  }

  lemma {:induction false} PopulatedIds(osm: map<string, OsmObject>, object_type: string, geometries: seq<Geometry>, objects: seq<NtfsObject>)
    ensures |Populated(osm, object_type, geometries, objects).objects| == |objects|
    ensures forall i :: 0 <= i < |objects| ==> Populated(osm, object_type, geometries, objects).objects[i].id == objects[i].id
  {
    PopulatedObjects(osm, object_type, geometries, objects);
  }

  /** `populate_shapes_for_collection`. The objects come from a collection with distinct ids
    * and keep their ids, so rebuilding the collection cannot fail. */
  method PopulateShapes(geometries: seq<Geometry>, objects: seq<NtfsObject>, osm: map<string, OsmObject>, object_type: string)
    returns (geometries': seq<Geometry>, objects': seq<NtfsObject>)
    requires IdCollection.UniqueIds(objects, NtfsKey)
    ensures geometries' == Populated(osm, object_type, geometries, objects).geometries
    ensures objects' == Populated(osm, object_type, geometries, objects).objects
    ensures IdCollection.UniqueIds(objects', NtfsKey)
  {
    geometries' := geometries;
    objects' := [];
    var generated_geo_obj_id := 0;
    for k := 0 to |objects|
      invariant Populated(osm, object_type, geometries, objects[..k]) == Progress(geometries', objects', generated_geo_obj_id)
    {
      assert objects[..k + 1][..k] == objects[..k];
      var obj := objects[k];
      var code := CodeValue(obj.codes, CodeKey(object_type));
      if code.None? {
        objects' := objects' + [obj];
        continue;
      }
      generated_geo_obj_id := generated_geo_obj_id + 1;
      var osm_obj_id := code.value;
      if osm_obj_id !in osm || osm[osm_obj_id].shape == [] || obj.geometry_id.Some? {
        objects' := objects' + [obj];
        continue;
      }
      var geo_id := GeoId(object_type, generated_geo_obj_id);
      objects' := objects' + [obj.(geometry_id := Some(geo_id))];
      geometries' := geometries' + [Geometry(geo_id, osm[osm_obj_id].shape)];
    }
    assert objects[..|objects|] == objects;
    PopulatedIds(osm, object_type, geometries, objects);
  }

  // ----- from_osm -----

  datatype Shapes = Shapes(lines: seq<NtfsObject>, routes: seq<NtfsObject>, geometries: seq<Geometry>)

  /** `from_osm` after the extract is read: both object lists must exist; lines then routes
    * get their geometries, numbered separately, and the geometries must have distinct ids. */
  function FromOsm(osm_lines: Option<seq<OsmObject>>, osm_routes: Option<seq<OsmObject>>, s: Shapes): Result<Shapes, string>
  {
    match OsmObjectsById(osm_lines, "lines")
    case Err(e) => Err(e)
    case Ok(lines_by_id) =>
      match OsmObjectsById(osm_routes, "routes")
      case Err(e) => Err(e)
      case Ok(routes_by_id) =>
        var l := Populated(lines_by_id, "line", s.geometries, s.lines);
        var r := Populated(routes_by_id, "route", l.geometries, s.routes);
        match IdCollection.TryMerge([], GeometryKey, r.geometries)
        case Err(e) => Err(e)
        case Ok(geometries) => Ok(Shapes(l.objects, r.objects, geometries))
  }

  /** `from_osm`. */
  method FromOsmPbf(osm_lines: Option<seq<OsmObject>>, osm_routes: Option<seq<OsmObject>>, s: Shapes)
    returns (r: Result<Shapes, string>)
    requires IdCollection.UniqueIds(s.lines, NtfsKey) && IdCollection.UniqueIds(s.routes, NtfsKey)
    ensures r == FromOsm(osm_lines, osm_routes, s)
  {
    var lines_by_id :- OsmObjectsById(osm_lines, "lines");
    var routes_by_id :- OsmObjectsById(osm_routes, "routes");
    var geometries, lines := PopulateShapes(s.geometries, s.lines, lines_by_id, "line");
    var routes;
    geometries, routes := PopulateShapes(geometries, s.routes, routes_by_id, "route");
    var all :- IdCollection.TryMerge([], GeometryKey, geometries);
    r := Ok(Shapes(lines, routes, all));
  }

  /** A missing list of OSM lines or routes is reported before anything else, lines first. */
  lemma FromOsmMissing(osm_lines: Option<seq<OsmObject>>, osm_routes: Option<seq<OsmObject>>, s: Shapes)
    requires osm_lines.None? || osm_routes.None?
    ensures FromOsm(osm_lines, osm_routes, s)
      == Err(NoObjectsError(if osm_lines.None? then "lines" else "routes"))
  {
  }

  /** An id of the form the import generates. */
  predicate Generated(id: string)
  {
    |id| >= 4 && id[..4] == "geo:"
  }

  lemma NumberedGenerated(object_type: string, id: string, counter: nat)
    requires NumberedUpTo(object_type, id, counter)
    ensures Generated(id)
  {
    var c: nat :| 1 <= c <= counter && id == GeoId(object_type, c);
    assert id[..4] == "geo:";
  }

  /** Line and route geometry ids never collide. */
  lemma LineRouteIdsDiffer(a: string, m: nat, b: string, n: nat)
    requires NumberedUpTo("line", a, m) && NumberedUpTo("route", b, n)
    ensures a != b
  {
    var c: nat :| 1 <= c <= m && a == GeoId("line", c);
    var d: nat :| 1 <= d <= n && b == GeoId("route", d);
    assert a[4] == 'l' && b[4] == 'r';
  }

  /** The geometries of `gs` from `from` on have distinct ids numbered for `object_type`. */
  predicate NewIds(gs: seq<Geometry>, from: nat, object_type: string, counter: nat)
  {
    from <= |gs|
    && (forall j :: from <= j < |gs| ==> NumberedUpTo(object_type, gs[j].id, counter))
    && (forall j, k :: from <= j < k < |gs| ==> gs[j].id != gs[k].id)
  }

  lemma PopulatedNewIds(osm: map<string, OsmObject>, object_type: string, geometries: seq<Geometry>, objects: seq<NtfsObject>)
    ensures NewIds(Populated(osm, object_type, geometries, objects).geometries, |geometries|, object_type,
                   Populated(osm, object_type, geometries, objects).counter)
    ensures Populated(osm, object_type, geometries, objects).geometries[..|geometries|] == geometries
  {
    PopulatedIdsDistinct(osm, object_type, geometries, objects);
    PopulatedGeometries(osm, object_type, geometries, objects);
  }

  /** Once both lists of OSM objects exist, the import succeeds whenever the geometries
    * already in the model have distinct ids none of which looks generated. */
  lemma FromOsmSucceeds(osm_lines: Option<seq<OsmObject>>, osm_routes: Option<seq<OsmObject>>, s: Shapes)
    requires osm_lines.Some? && osm_routes.Some?
    requires IdCollection.UniqueIds(s.geometries, GeometryKey)
    requires forall i :: 0 <= i < |s.geometries| ==> !Generated(s.geometries[i].id)
    ensures FromOsm(osm_lines, osm_routes, s).Ok?
  {
    var lines_by_id := OsmObjectsById(osm_lines, "lines").value;
    var routes_by_id := OsmObjectsById(osm_routes, "routes").value;
    var l := Populated(lines_by_id, "line", s.geometries, s.lines);
    var r := Populated(routes_by_id, "route", l.geometries, s.routes);
    PopulatedNewIds(lines_by_id, "line", s.geometries, s.lines);
    PopulatedNewIds(routes_by_id, "route", l.geometries, s.routes);
    var n0 := |s.geometries|;
    var n1 := |l.geometries|;
    assert forall j :: 0 <= j < n1 ==> r.geometries[j] == l.geometries[j] by {
      assert r.geometries[..n1] == l.geometries;
      forall j | 0 <= j < n1 ensures r.geometries[j] == l.geometries[j] {
        assert r.geometries[..n1][j] == r.geometries[j];
      }
    }
    assert forall j :: 0 <= j < n0 ==> l.geometries[j] == s.geometries[j] by {
      forall j | 0 <= j < n0 ensures l.geometries[j] == s.geometries[j] {
        assert l.geometries[..n0][j] == l.geometries[j];
      }
    }
    forall i, j | 0 <= i < j < |r.geometries| ensures r.geometries[i].id != r.geometries[j].id {
      if j < n0 {
        assert s.geometries[i].id != s.geometries[j].id;
      } else if i < n0 {
        if j < n1 {
          NumberedGenerated("line", l.geometries[j].id, l.counter);
        } else {
          NumberedGenerated("route", r.geometries[j].id, r.counter);
        }
      } else if j < n1 {
        assert l.geometries[i].id != l.geometries[j].id;
      } else if i < n1 {
        LineRouteIdsDiffer(l.geometries[i].id, l.counter, r.geometries[j].id, r.counter);
      }
    }
    IdCollection.TryMergeSpec([], GeometryKey, r.geometries);
    assert [] + r.geometries == r.geometries;
  }
}
