/** The NaPTAN reader of the TransXChange converter (transxchange2ntfs/src/transxchange/naptan.rs).
  * Three CSV files are read in turn: the stop areas, the table that puts stops into areas, and
  * the stops. Each stop becomes a stop point attached to its area, and a stop that no area
  * lists gets a stop area of its own. The file areas, the stop points and the generated areas
  * are then merged into the collections, in that order.
  *
  * A CSV file is given as its deserialised rows, `None` standing for a record that does not
  * deserialise. A stop-area row carries the WGS84 position that the projection library gives
  * for its easting and northing, `None` when the conversion fails. */
module Naptan {
  import opened Wrappers
  import opened IdCollection
  import opened SeqFacts

  /** A position, only ever copied by the reader. */
  datatype Coord = Coord(lon: real, lat: real)

  datatype StopArea = StopArea(id: string, name: string, visible: bool, coord: Coord)

  datatype StopPoint = StopPoint(id: string, name: string, codes: set<(string, string)>, visible: bool,
                                 coord: Coord, stop_area_id: string, platform_code: Option<string>)

  function StopAreaKey(a: StopArea): string { a.id }
  function StopPointKey(p: StopPoint): string { p.id }

  datatype StopAreaRow = StopAreaRow(stop_area_code: string, name: string, converted: Option<Coord>)
  datatype StopInAreaRow = StopInAreaRow(atco_code: string, stop_area_code: string)
  datatype StopRow = StopRow(atco_code: string, naptan_code: string, name: string, longitude: real,
                             latitude: real, indicator: string)

  const StopAreaParseError := "Error parsing the CSV record into a StopArea"
  const StopInAreaParseError := "Error parsing the CSV record into a StopInArea"
  const StopParseError := "Error parsing the CSV record into a Stop"

  predicate AllParsed<R>(rows: seq<Option<R>>)
  {
    forall i :: 0 <= i < |rows| ==> rows[i].Some?
  }

  lemma AllParsedSnoc<R>(rows: seq<Option<R>>)
    requires rows != []
    ensures AllParsed(rows) <==> AllParsed(rows[..|rows| - 1]) && rows[|rows| - 1].Some?
  {
    var front := rows[..|rows| - 1];
    if AllParsed(front) && rows[|rows| - 1].Some? {
      forall i | 0 <= i < |rows| ensures rows[i].Some? {
        if i < |front| { assert rows[i] == front[i]; }
      }
    }
    if AllParsed(rows) {
      forall i | 0 <= i < |front| ensures front[i].Some? { assert front[i] == rows[i]; }
    }
  }

  // ----- read_stop_areas -----

  function AreaOf(a: StopAreaRow, coord: Coord): StopArea
  {
    StopArea(a.stop_area_code, a.name, true, coord)
  }

  /** One record of `read_stop_areas`: a record that does not parse is an error, one whose
    * position does not convert is skipped (with a warning), any other is pushed. */
  function AreaStep(areas: seq<StopArea>, row: Option<StopAreaRow>): Result<seq<StopArea>, string>
  {
    match row
    case None => Err(StopAreaParseError)
    case Some(a) =>
      match a.converted
      case None => Ok(areas)
      case Some(coord) => Push(areas, StopAreaKey, AreaOf(a, coord))
  }

  /** The outcome of `read_stop_areas` on the given records. */
  function AreasRead(rows: seq<Option<StopAreaRow>>): Result<seq<StopArea>, string>
    decreases |rows|
  {
    if rows == [] then Ok([])
    else
      match AreasRead(rows[..|rows| - 1])
      case Err(e) => Err(e)
      case Ok(areas) => AreaStep(areas, rows[|rows| - 1])
  }

  /** The stop areas of the parsed records whose position converts, in file order. */
  function Converted(rows: seq<Option<StopAreaRow>>): seq<StopArea>
    decreases |rows|
  {
    if rows == [] then []
    else
      var last := rows[|rows| - 1];
      Converted(rows[..|rows| - 1])
      + (if last.Some? && last.value.converted.Some? then [AreaOf(last.value, last.value.converted.value)] else [])
  }

  /** Reading succeeds exactly when every record parses and the converted areas have distinct
    * codes, and then gives those areas in file order. */
  lemma {:induction false} AreasReadSpec(rows: seq<Option<StopAreaRow>>)
    ensures AreasRead(rows).Ok? <==> AllParsed(rows) && UniqueIds(Converted(rows), StopAreaKey)
    ensures AreasRead(rows).Ok? ==> AreasRead(rows).value == Converted(rows)
    decreases |rows|
  {
    if rows != [] {
      var front := rows[..|rows| - 1];
      var last := rows[|rows| - 1];
      AreasReadSpec(front);
      AllParsedSnoc(rows);
      if last.Some? && last.value.converted.Some? {
        var area := AreaOf(last.value, last.value.converted.value);
        assert Converted(rows) == Converted(front) + [area];
        UniqueIdsSnoc(Converted(front), StopAreaKey, area);
      } else {
        assert Converted(rows) == Converted(front) + [];
        assert Converted(front) + [] == Converted(front);
        if AreasRead(front).Ok? {
          assert AreasRead(rows) == AreaStep(AreasRead(front).value, last);
        }
      }
    }
  }

  /** Once a record has failed, the rest of the file is not read. */
  lemma {:induction false} AreasReadStopped(rows: seq<Option<StopAreaRow>>, n: nat)
    requires n <= |rows| && AreasRead(rows[..n]).Err?
    ensures AreasRead(rows) == AreasRead(rows[..n])
    decreases |rows|
  {
    if n < |rows| {
      var front := rows[..|rows| - 1];
      assert front[..n] == rows[..n];
      AreasReadStopped(front, n);
    } else {
      assert rows[..n] == rows;
    }
  }

  /** `read_stop_areas`. */
  method ReadStopAreas(rows: seq<Option<StopAreaRow>>) returns (r: Result<seq<StopArea>, string>)
    ensures r == AreasRead(rows)
  {
    var areas: seq<StopArea> := [];
    for k := 0 to |rows|
      invariant AreasRead(rows[..k]) == Ok(areas)
    {
      PrefixStep(rows, k);
      match rows[k]
      case None =>
        AreasReadStopped(rows, k + 1);
        return Err(StopAreaParseError);
      case Some(a) =>
        if a.converted.Some? {
          var pushed := Push(areas, StopAreaKey, AreaOf(a, a.converted.value));
          if pushed.Err? {
            AreasReadStopped(rows, k + 1);
            return pushed;
          }
          areas := pushed.value;
        }
    }
    WholePrefix(rows);
    r := Ok(areas);
  }

  // ----- read_stops_in_area -----

  /** A record kept by `read_stops_in_area`: it parses and names a known stop area. */
  predicate Kept(row: Option<StopInAreaRow>, stop_areas: seq<StopArea>)
  {
    row.Some? && row.value.stop_area_code in IdSet(stop_areas, StopAreaKey)
  }

  /** The map the kept records build, a later record for the same stop replacing an earlier. */
  function InAreaMap(rows: seq<Option<StopInAreaRow>>, stop_areas: seq<StopArea>): map<string, string>
    decreases |rows|
  {
    if rows == [] then map[]
    else
      var m := InAreaMap(rows[..|rows| - 1], stop_areas);
      var last := rows[|rows| - 1];
      if Kept(last, stop_areas) then m[last.value.atco_code := last.value.stop_area_code] else m
  }

  /** `read_stops_in_area`: the records that name an unknown area are dropped (with a warning)
    * and the others collected into a map; any record that does not parse fails the whole
    * collection. */
  function StopsInArea(rows: seq<Option<StopInAreaRow>>, stop_areas: seq<StopArea>): (r: Result<map<string, string>, string>)
    ensures r.Ok? <==> AllParsed(rows)
    ensures r.Err? ==> r.error == StopInAreaParseError
  {
    if AllParsed(rows) then Ok(InAreaMap(rows, stop_areas)) else Err(StopInAreaParseError)
  }

  /** The last kept record for stop `a` is at `i`. */
  predicate LastFor(rows: seq<Option<StopInAreaRow>>, stop_areas: seq<StopArea>, a: string, i: int)
  {
    0 <= i < |rows| && Kept(rows[i], stop_areas) && rows[i].value.atco_code == a
    && forall j :: i < j < |rows| && Kept(rows[j], stop_areas) ==> rows[j].value.atco_code != a
  }

  /** The map has a key for each stop of a kept record, and maps it to the area of the last kept
    * record for that stop, an area that exists. */
  lemma {:induction false} InAreaMapSpec(rows: seq<Option<StopInAreaRow>>, stop_areas: seq<StopArea>)
    ensures forall a :: a in InAreaMap(rows, stop_areas) <==>
      exists i :: 0 <= i < |rows| && Kept(rows[i], stop_areas) && rows[i].value.atco_code == a
    ensures forall a :: a in InAreaMap(rows, stop_areas) ==>
      exists i :: LastFor(rows, stop_areas, a, i) && InAreaMap(rows, stop_areas)[a] == rows[i].value.stop_area_code
    ensures forall a :: a in InAreaMap(rows, stop_areas) ==> InAreaMap(rows, stop_areas)[a] in IdSet(stop_areas, StopAreaKey)
    decreases |rows|
  {
    if rows != [] {
      var front := rows[..|rows| - 1];
      var n := |rows| - 1;
      var last := rows[n];
      var m0 := InAreaMap(front, stop_areas);
      var m := InAreaMap(rows, stop_areas);
      InAreaMapSpec(front, stop_areas);
      forall a | a in m
        ensures exists i :: LastFor(rows, stop_areas, a, i) && m[a] == rows[i].value.stop_area_code
      {
        if Kept(last, stop_areas) && a == last.value.atco_code {
          assert LastFor(rows, stop_areas, a, n);
        } else {
          var i :| LastFor(front, stop_areas, a, i) && m0[a] == front[i].value.stop_area_code;
          assert rows[i] == front[i];
          forall j | i < j < |rows| && Kept(rows[j], stop_areas) ensures rows[j].value.atco_code != a {
            if j < n { assert rows[j] == front[j]; }
          }
          assert LastFor(rows, stop_areas, a, i);
        }
      }
      forall a | exists i :: 0 <= i < |rows| && Kept(rows[i], stop_areas) && rows[i].value.atco_code == a
        ensures a in m
      {
        var i :| 0 <= i < |rows| && Kept(rows[i], stop_areas) && rows[i].value.atco_code == a;
        if i < n { assert rows[i] == front[i]; }
      }
      forall a | a in m
        ensures exists i :: 0 <= i < |rows| && Kept(rows[i], stop_areas) && rows[i].value.atco_code == a
      {
        var i :| LastFor(rows, stop_areas, a, i) && m[a] == rows[i].value.stop_area_code;
      }
    }
  }

  // ----- read_stops -----

  /** The codes of a stop: its NaptanCode, when it has one. */
  function CodesOf(naptan_code: string): set<(string, string)>
  {
    if naptan_code == "" then {} else {("NaptanCode", naptan_code)}
  }

  /** The stop point of a record before it is attached to an area. */
  function BarePoint(s: StopRow): StopPoint
  {
    StopPoint(s.atco_code, s.name, CodesOf(s.naptan_code), true, Coord(s.longitude, s.latitude),
              "default_id", Some(s.indicator))
  }

  /** The object library's conversion of a stop point into a stop area, as far as this reader
    * relies on it: the id is the point's prefixed with "Navitia:", and the name, visibility and
    * position are the point's. */
  function AreaFromPoint(p: StopPoint): StopArea
  {
    StopArea("Navitia:" + p.id, p.name, p.visible, p.coord)
  }

  datatype StopsRead = StopsRead(stop_points: seq<StopPoint>, stop_areas: seq<StopArea>)

  /** One record of `read_stops`: a listed stop takes its area from the map; any other gets an
    * area made from its point, pushed before the point. */
  function StopStep(acc: StopsRead, s: StopRow, in_area: map<string, string>): Result<StopsRead, string>
  {
    var point := BarePoint(s);
    if s.atco_code in in_area then
      match Push(acc.stop_points, StopPointKey, point.(stop_area_id := in_area[s.atco_code]))
      case Err(e) => Err(e)
      case Ok(points) => Ok(acc.(stop_points := points))
    else
      var area := AreaFromPoint(point);
      match Push(acc.stop_areas, StopAreaKey, area)
      case Err(e) => Err(e)
      case Ok(areas) =>
        match Push(acc.stop_points, StopPointKey, point.(stop_area_id := area.id))
        case Err(e) => Err(e)
        case Ok(points) => Ok(StopsRead(points, areas))
  }

  /** The outcome of `read_stops` on the given records. */
  function StopsReadOf(rows: seq<Option<StopRow>>, in_area: map<string, string>): Result<StopsRead, string>
    decreases |rows|
  {
    if rows == [] then Ok(StopsRead([], []))
    else
      match StopsReadOf(rows[..|rows| - 1], in_area)
      case Err(e) => Err(e)
      case Ok(acc) =>
        match rows[|rows| - 1]
        case None => Err(StopParseError)
        case Some(s) => StopStep(acc, s, in_area)
  }

  /** The stop point a record stands for once attached. */
  function LinkedPoint(s: StopRow, in_area: map<string, string>): StopPoint
  {
    BarePoint(s).(stop_area_id := if s.atco_code in in_area then in_area[s.atco_code] else "Navitia:" + s.atco_code)
  }

  /** The points of the parsed records, in file order. */
  function PointsOf(rows: seq<Option<StopRow>>, in_area: map<string, string>): seq<StopPoint>
    decreases |rows|
  {
    if rows == [] then []
    else
      var last := rows[|rows| - 1];
      PointsOf(rows[..|rows| - 1], in_area) + (if last.Some? then [LinkedPoint(last.value, in_area)] else [])
  }

  /** The areas made for the parsed records that the map does not list, in file order. */
  function GeneratedAreas(rows: seq<Option<StopRow>>, in_area: map<string, string>): seq<StopArea>
    decreases |rows|
  {
    if rows == [] then []
    else
      var last := rows[|rows| - 1];
      GeneratedAreas(rows[..|rows| - 1], in_area)
      + (if last.Some? && last.value.atco_code !in in_area then [AreaFromPoint(BarePoint(last.value))] else [])
  }

  /** A point has the NaptanCode code exactly when the record's code is non-empty, and no other
    * code; a listed stop takes the mapped area and any other the area generated for it. */
  lemma LinkedPointSpec(s: StopRow, in_area: map<string, string>)
    ensures LinkedPoint(s, in_area).id == s.atco_code && LinkedPoint(s, in_area).name == s.name
    ensures LinkedPoint(s, in_area).platform_code == Some(s.indicator)
    ensures forall k :: k in LinkedPoint(s, in_area).codes <==> s.naptan_code != "" && k == ("NaptanCode", s.naptan_code)
    ensures s.atco_code in in_area ==> LinkedPoint(s, in_area).stop_area_id == in_area[s.atco_code]
    ensures s.atco_code !in in_area ==>
      LinkedPoint(s, in_area).stop_area_id == AreaFromPoint(BarePoint(s)).id == "Navitia:" + s.atco_code
  {
  }

  /** Reading succeeds exactly when every record parses and neither the points nor the
    * generated areas repeat an id, and then gives the points and the generated areas. */
  lemma {:induction false} StopsReadSpec(rows: seq<Option<StopRow>>, in_area: map<string, string>)
    ensures StopsReadOf(rows, in_area).Ok? <==>
      AllParsed(rows) && UniqueIds(PointsOf(rows, in_area), StopPointKey)
      && UniqueIds(GeneratedAreas(rows, in_area), StopAreaKey)
    ensures StopsReadOf(rows, in_area).Ok? ==>
      StopsReadOf(rows, in_area).value == StopsRead(PointsOf(rows, in_area), GeneratedAreas(rows, in_area))
    decreases |rows|
  {
    if rows != [] {
      var front := rows[..|rows| - 1];
      var last := rows[|rows| - 1];
      StopsReadSpec(front, in_area);
      AllParsedSnoc(rows);
      if last.Some? {
        var s := last.value;
        assert PointsOf(rows, in_area) == PointsOf(front, in_area) + [LinkedPoint(s, in_area)];
        UniqueIdsSnoc(PointsOf(front, in_area), StopPointKey, LinkedPoint(s, in_area));
        if s.atco_code !in in_area {
          assert GeneratedAreas(rows, in_area) == GeneratedAreas(front, in_area) + [AreaFromPoint(BarePoint(s))];
          UniqueIdsSnoc(GeneratedAreas(front, in_area), StopAreaKey, AreaFromPoint(BarePoint(s)));
        } else {
          assert GeneratedAreas(rows, in_area) == GeneratedAreas(front, in_area) + [];
          assert GeneratedAreas(front, in_area) + [] == GeneratedAreas(front, in_area);
        }
      }
    }
  }

  /** Once a record has failed, the rest of the file is not read. */
  lemma {:induction false} StopsReadStopped(rows: seq<Option<StopRow>>, in_area: map<string, string>, n: nat)
    requires n <= |rows| && StopsReadOf(rows[..n], in_area).Err?
    ensures StopsReadOf(rows, in_area) == StopsReadOf(rows[..n], in_area)
    decreases |rows|
  {
    if n < |rows| {
      var front := rows[..|rows| - 1];
      assert front[..n] == rows[..n];
      StopsReadStopped(front, in_area, n);
    } else {
      assert rows[..n] == rows;
    }
  }

  /** Every point read is attached either to a mapped area or to one of the generated areas. */
  lemma {:induction false} PointsAttached(rows: seq<Option<StopRow>>, in_area: map<string, string>)
    ensures forall p :: p in PointsOf(rows, in_area) ==>
      p.stop_area_id in in_area.Values || p.stop_area_id in IdSet(GeneratedAreas(rows, in_area), StopAreaKey)
    decreases |rows|
  {
    if rows != [] {
      var front := rows[..|rows| - 1];
      var last := rows[|rows| - 1];
      PointsAttached(front, in_area);
      var generated := GeneratedAreas(rows, in_area);
      var extra := if last.Some? && last.value.atco_code !in in_area then [AreaFromPoint(BarePoint(last.value))] else [];
      IdSetAppend(GeneratedAreas(front, in_area), extra, StopAreaKey);
      if last.Some? {
        var s := last.value;
        if s.atco_code in in_area {
          assert in_area[s.atco_code] in in_area.Values;
        } else {
          assert StopAreaKey(generated[|generated| - 1]) == "Navitia:" + s.atco_code;
        }
      }
    }
  }

  /** `read_stops`. */
  method ReadStops(rows: seq<Option<StopRow>>, in_area: map<string, string>) returns (r: Result<StopsRead, string>)
    ensures r == StopsReadOf(rows, in_area)
  {
    var points: seq<StopPoint> := [];
    var areas: seq<StopArea> := [];
    for k := 0 to |rows|
      invariant StopsReadOf(rows[..k], in_area) == Ok(StopsRead(points, areas))
    {
      PrefixStep(rows, k);
      if rows[k].None? {
        StopsReadStopped(rows, in_area, k + 1);
        return Err(StopParseError);
      }
      var s := rows[k].value;
      var point := BarePoint(s);
      if s.atco_code in in_area {
        point := point.(stop_area_id := in_area[s.atco_code]);
      } else {
        var area := AreaFromPoint(point);
        point := point.(stop_area_id := area.id);
        var pushed := Push(areas, StopAreaKey, area);
        if pushed.Err? {
          StopsReadStopped(rows, in_area, k + 1);
          return Err(pushed.error);
        }
        areas := pushed.value;
      }
      var pushed := Push(points, StopPointKey, point);
      if pushed.Err? {
        StopsReadStopped(rows, in_area, k + 1);
        return Err(pushed.error);
      }
      points := pushed.value;
    }
    WholePrefix(rows);
    r := Ok(StopsRead(points, areas));
  }

  // ----- read -----

  datatype Collections = Collections(stop_areas: seq<StopArea>, stop_points: seq<StopPoint>)

  /** The end of `read`: the file areas, the points and the generated areas merged into the
    * collections, in that order. */
  function Merged(c: Collections, areas: seq<StopArea>, read: StopsRead): Result<Collections, string>
  {
    match TryMerge(c.stop_areas, StopAreaKey, areas)
    case Err(e) => Err(e)
    case Ok(with_areas) =>
      match TryMerge(c.stop_points, StopPointKey, read.stop_points)
      case Err(e) => Err(e)
      case Ok(points) =>
        match TryMerge(with_areas, StopAreaKey, read.stop_areas)
        case Err(e) => Err(e)
        case Ok(all_areas) => Ok(Collections(all_areas, points))
  }

  /** The outcome of `read`: the three files in turn, then the merge. */
  function Loaded(area_rows: seq<Option<StopAreaRow>>, in_area_rows: seq<Option<StopInAreaRow>>,
                  stop_rows: seq<Option<StopRow>>, c: Collections): Result<Collections, string>
  {
    match AreasRead(area_rows)
    case Err(e) => Err(e)
    case Ok(areas) =>
      match StopsInArea(in_area_rows, areas)
      case Err(e) => Err(e)
      case Ok(in_area) =>
        match StopsReadOf(stop_rows, in_area)
        case Err(e) => Err(e)
        case Ok(read) => Merged(c, areas, read)
  }

  /** `read`. */
  method Read(area_rows: seq<Option<StopAreaRow>>, in_area_rows: seq<Option<StopInAreaRow>>,
              stop_rows: seq<Option<StopRow>>, c: Collections) returns (r: Result<Collections, string>)
    ensures r == Loaded(area_rows, in_area_rows, stop_rows, c)
  {
    var areas := ReadStopAreas(area_rows);
    if areas.Err? {
      return Err(areas.error);
    }
    var in_area := StopsInArea(in_area_rows, areas.value);
    if in_area.Err? {
      return Err(in_area.error);
    }
    var read := ReadStops(stop_rows, in_area.value);
    if read.Err? {
      return Err(read.error);
    }
    var with_areas := TryMerge(c.stop_areas, StopAreaKey, areas.value);
    if with_areas.Err? {
      return Err(with_areas.error);
    }
    var points := TryMerge(c.stop_points, StopPointKey, read.value.stop_points);
    if points.Err? {
      return Err(points.error);
    }
    var all_areas := TryMerge(with_areas.value, StopAreaKey, read.value.stop_areas);
    if all_areas.Err? {
      return Err(all_areas.error);
    }
    r := Ok(Collections(all_areas.value, points.value));
  }

  /** The ids of a concatenation are distinct only if those of each part are. */
  lemma UniqueIdsSplit<T>(a: seq<T>, b: seq<T>, key: T -> string)
    requires UniqueIds(a + b, key)
    ensures UniqueIds(a, key) && UniqueIds(b, key)
  {
    assert (a + b)[..|a|] == a;
    UniqueIdsPrefix(a + b, key, |a|);
    forall i, j | 0 <= i < j < |b| ensures key(b[i]) != key(b[j]) {
      assert (a + b)[|a| + i] == b[i] && (a + b)[|a| + j] == b[j];
    }
  }

  /** Into collections with distinct ids, the merge succeeds exactly when no id repeats once
    * everything is appended, and then appends the file areas and the generated areas after the
    * existing ones, and the points after the existing points. */
  lemma MergedSpec(c: Collections, areas: seq<StopArea>, read: StopsRead)
    requires UniqueIds(c.stop_areas, StopAreaKey) && UniqueIds(c.stop_points, StopPointKey)
    ensures Merged(c, areas, read).Ok? <==>
      UniqueIds(c.stop_areas + areas + read.stop_areas, StopAreaKey)
      && UniqueIds(c.stop_points + read.stop_points, StopPointKey)
    ensures Merged(c, areas, read).Ok? ==>
      Merged(c, areas, read).value == Collections(c.stop_areas + areas + read.stop_areas, c.stop_points + read.stop_points)
  {
    TryMergeSpec(c.stop_areas, StopAreaKey, areas);
    TryMergeSpec(c.stop_points, StopPointKey, read.stop_points);
    if UniqueIds(c.stop_areas + areas, StopAreaKey) {
      TryMergeSpec(c.stop_areas + areas, StopAreaKey, read.stop_areas);
    }
    if UniqueIds(c.stop_areas + areas + read.stop_areas, StopAreaKey) {
      UniqueIdsSplit(c.stop_areas + areas, read.stop_areas, StopAreaKey);
    }
  }

  /** From collections with distinct ids, reading succeeds exactly when every record of the
    * three files parses and no id repeats once merged; the collections then gain the file
    * areas followed by the generated areas, and the points. */
  lemma LoadedSpec(area_rows: seq<Option<StopAreaRow>>, in_area_rows: seq<Option<StopInAreaRow>>,
                   stop_rows: seq<Option<StopRow>>, c: Collections)
    requires UniqueIds(c.stop_areas, StopAreaKey) && UniqueIds(c.stop_points, StopPointKey)
    ensures Loaded(area_rows, in_area_rows, stop_rows, c).Ok? <==>
      AllParsed(area_rows) && AllParsed(in_area_rows) && AllParsed(stop_rows)
      && UniqueIds(c.stop_areas + Converted(area_rows)
                   + GeneratedAreas(stop_rows, InAreaMap(in_area_rows, Converted(area_rows))), StopAreaKey)
      && UniqueIds(c.stop_points + PointsOf(stop_rows, InAreaMap(in_area_rows, Converted(area_rows))), StopPointKey)
    ensures Loaded(area_rows, in_area_rows, stop_rows, c).Ok? ==>
      Loaded(area_rows, in_area_rows, stop_rows, c).value == Collections(
        c.stop_areas + Converted(area_rows) + GeneratedAreas(stop_rows, InAreaMap(in_area_rows, Converted(area_rows))),
        c.stop_points + PointsOf(stop_rows, InAreaMap(in_area_rows, Converted(area_rows))))
  {
    var areas := Converted(area_rows);
    var in_area := InAreaMap(in_area_rows, areas);
    var points := PointsOf(stop_rows, in_area);
    var generated := GeneratedAreas(stop_rows, in_area);
    AreasReadSpec(area_rows);
    StopsReadSpec(stop_rows, in_area);
    if UniqueIds(c.stop_areas + areas + generated, StopAreaKey) {
      UniqueIdsSplit(c.stop_areas + areas, generated, StopAreaKey);
      UniqueIdsSplit(c.stop_areas, areas, StopAreaKey);
    }
    if UniqueIds(c.stop_points + points, StopPointKey) {
      UniqueIdsSplit(c.stop_points, points, StopPointKey);
    }
    if AreasRead(area_rows).Ok? && AllParsed(in_area_rows) && StopsReadOf(stop_rows, in_area).Ok? {
      assert Loaded(area_rows, in_area_rows, stop_rows, c) == Merged(c, areas, StopsRead(points, generated));
      MergedSpec(c, areas, StopsRead(points, generated));
    }
  }

  /** Every stop point the files add is attached to a stop area present afterwards. */
  lemma LoadedAttached(area_rows: seq<Option<StopAreaRow>>, in_area_rows: seq<Option<StopInAreaRow>>,
                       stop_rows: seq<Option<StopRow>>, c: Collections, d: Collections)
    requires UniqueIds(c.stop_areas, StopAreaKey) && UniqueIds(c.stop_points, StopPointKey)
    requires Loaded(area_rows, in_area_rows, stop_rows, c) == Ok(d)
    ensures forall i :: |c.stop_points| <= i < |d.stop_points| ==>
      d.stop_points[i].stop_area_id in IdSet(d.stop_areas, StopAreaKey)
  {
    LoadedSpec(area_rows, in_area_rows, stop_rows, c);
    var areas := Converted(area_rows);
    var in_area := InAreaMap(in_area_rows, areas);
    var points := PointsOf(stop_rows, in_area);
    var generated := GeneratedAreas(stop_rows, in_area);
    InAreaMapSpec(in_area_rows, areas);
    PointsAttached(stop_rows, in_area);
    IdSetAppend(c.stop_areas + areas, generated, StopAreaKey);
    IdSetAppend(c.stop_areas, areas, StopAreaKey);
    forall i | |c.stop_points| <= i < |d.stop_points|
      ensures d.stop_points[i].stop_area_id in IdSet(d.stop_areas, StopAreaKey)
    {
      var p := d.stop_points[i];
      assert p == points[i - |c.stop_points|];
      if p.stop_area_id in in_area.Values {
        var a :| a in in_area && in_area[a] == p.stop_area_id;
      }
    }
  }

  /** The two stop records of the reader's own test. */
  function ExampleStopRows(): seq<Option<StopRow>>
  {
    [Some(StopRow("0100053316", "bstjpdm", "Broad Walk Shops", -2.5876178397, 51.4558382170, "Stop B")),
     Some(StopRow("0100053264", "bstmjdp", "Alberton Road", -2.5407019785, 51.4889912765, "NE-bound"))]
  }

  /** The stop-in-area map of the reader's own test. */
  function ExampleInArea(): map<string, string>
  {
    map["0100053316" := "stop-area-1", "0100053308" := "stop-area-3"]
  }

  /** The reading of the stop file in the reader's own test: both stops are read with their
    * names and NaptanCode codes; the one the map lists keeps its area "stop-area-1", and the
    * other gets the one generated area, "Navitia:0100053264", named after it. */
  lemma StopsReadExample()
    ensures StopsReadOf(ExampleStopRows(), ExampleInArea()).Ok?
    ensures StopsReadOf(ExampleStopRows(), ExampleInArea()).Ok? ==>
      var read := StopsReadOf(ExampleStopRows(), ExampleInArea()).value;
      && |read.stop_points| == 2
      && read.stop_points[0].id == "0100053316" && read.stop_points[0].name == "Broad Walk Shops"
      && ("NaptanCode", "bstjpdm") in read.stop_points[0].codes
      && read.stop_points[0].stop_area_id == "stop-area-1"
      && read.stop_points[1].id == "0100053264" && read.stop_points[1].name == "Alberton Road"
      && ("NaptanCode", "bstmjdp") in read.stop_points[1].codes
      && read.stop_points[1].stop_area_id == "Navitia:0100053264"
      && |read.stop_areas| == 1
      && read.stop_areas[0].id == "Navitia:0100053264" && read.stop_areas[0].name == "Alberton Road"
  {
    var rows := ExampleStopRows();
    var in_area := ExampleInArea();
    var s1 := rows[0].value;
    var s2 := rows[1].value;
    assert rows[..1] == [Some(s1)] && rows[..1][..0] == [];
    assert s1.atco_code in in_area;
    assert s2.atco_code !in in_area;
    assert s2.atco_code != s1.atco_code;
    assert "Navitia:" + s2.atco_code == "Navitia:0100053264";
  }
}
