/** The extraction of the Lyon network's points of interest from its three CSV exports
  * (src/poi/sytral.rs): the main POI file, the park-and-ride file and the bicycle-park file.
  * Each file is read record by record into POIs with their properties; every POI type met is
  * recorded once, with the label of the first record that names it.
  *
  * A file is given as its deserialised records, `None` standing for a record that does not
  * deserialise for a reason other than an empty `cod_typ_poi` (which `de_non_empty_string`
  * rejects and this model checks itself). Which of the three files exist is a parameter. */
module SytralPoi {
  import opened Wrappers
  import Strings
  import SeqFacts

  const MainFile := "POI_TCL.csv"
  const ParkAndRideFile := "parcs_relais.csv"
  const BikeParkFile := "parcs_velos.csv"

  /** Which of the three exports a record comes from. */
  datatype FileKind = Main | ParkAndRide | BikePark

  function FileName(kind: FileKind): string
  {
    match kind
    case Main => MainFile
    case ParkAndRide => ParkAndRideFile
    case BikePark => BikeParkFile
  }

  datatype Coord = Coord(lon: real, lat: real)

  /** A record of any of the three files; each file fills the columns it has. */
  datatype Record = Record(
    poi_type: string, poi_type_label: string, id_vr: Option<string>, id_main: Option<string>,
    label_main: Option<string>, label_vr: Option<string>, comment: Option<string>,
    address: Option<string>, postal_code: Option<string>, city_label: Option<string>,
    coord: Coord, capacity: Option<nat>, disabled_capacity: Option<nat>, opening: Option<string>,
    supervised: Option<string>, description: Option<string>)

  datatype Property = Property(key: string, value: string)
  datatype PoiType = PoiType(id: string, name: string)
  datatype Poi = Poi(id: string, name: string, coord: Coord, poi_type_id: string,
                     properties: seq<Property>, visible: bool)

  /** The POIs and the POI types built so far (the types keyed by id). */
  datatype Extraction = Extraction(pois: seq<Poi>, poi_types: map<string, PoiType>)

  // ----- Messages -----

  /** The context added to a record that does not deserialise: the file's path in quotes. */
  function ReadError(dir: string, kind: FileKind): string
  {
    "Error reading " + Strings.Quoted(dir + "/" + FileName(kind))
  }

  function UndefinedIdError(file: string): string
  {
    "poi with undefined id found in file " + file
  }

  function RepeatedIdError(id: string, file: string): string
  {
    "poi with id " + Strings.Quoted(id) + " found at least twice in file " + Strings.Quoted(file)
  }

  /** The panic of `unwrap` on a record without a label, which ends the extraction. */
  const MissingLabelPanic := "called `Option::unwrap()` on a `None` value"

  function MissingFileError(file: string): string
  {
    "missing file " + file
  }

  // ----- Ids -----

  /** `get_poi_id_without_collision`: the record's id, recorded in the file's set of ids; a
    * missing id or one already recorded is an error and leaves the set unchanged. */
  method GetPoiIdWithoutCollision(poi_id: Option<string>, poi_ids: set<string>, file: string)
    returns (r: Result<string, string>, poi_ids': set<string>)
    ensures poi_id.None? ==> r == Err(UndefinedIdError(file)) && poi_ids' == poi_ids
    ensures poi_id.Some? && poi_id.value in poi_ids ==>
      r == Err(RepeatedIdError(poi_id.value, file)) && poi_ids' == poi_ids
    ensures poi_id.Some? && poi_id.value !in poi_ids ==>
      r == Ok(poi_id.value) && poi_ids' == poi_ids + {poi_id.value}
    ensures r.Ok? ==> r.value !in poi_ids && r.value in poi_ids'
  {
    if poi_id.None? {
      return Err(UndefinedIdError(file)), poi_ids;
    }
    var id := poi_id.value;
    if id in poi_ids {
      return Err(RepeatedIdError(id, file)), poi_ids;
    }
    r, poi_ids' := Ok(id), poi_ids + {id};
  }

  // ----- One record -----

  /** The column holding a record's id: `idt_poi` in the main file, `Idt` in the others. */
  function IdOf(kind: FileKind, rec: Record): Option<string>
  {
    if kind == Main then rec.id_main else rec.id_vr
  }

  /** The column holding a record's label: `lib_poi` in the main file, `Lib` in the others. */
  function LabelOf(kind: FileKind, rec: Record): Option<string>
  {
    if kind == Main then rec.label_main else rec.label_vr
  }

  /** The POI type of a record: built from its type code in the main file, fixed otherwise. */
  function TypeIdOf(kind: FileKind, rec: Record): string
  {
    match kind
    case Main => "TCL:" + rec.poi_type
    case ParkAndRide => "amenity:parking"
    case BikePark => "amenity:bicycle_parking"
  }

  /** A property for an optional value. */
  function Optional(key: string, value: Option<string>): seq<Property>
  {
    if value.Some? then [Property(key, value.value)] else []
  }

  function NumberText(n: Option<nat>): Option<string>
  {
    if n.Some? then Some(Strings.NatToString(n.value)) else None
  }

  /** `capacity:disabled`: "no" for no place, the number of places otherwise. */
  function DisabledText(n: nat): string
  {
    if n > 0 then Strings.NatToString(n) else "no"
  }

  /** `supervised`: "yes" for the raw value "O", "no" for any other. */
  function SupervisedText(raw: string): string
  {
    if raw == "O" then "yes" else "no"
  }

  /** The properties of a record, in the order each file pushes them. */
  function PropertiesOf(kind: FileKind, rec: Record, id: string): seq<Property>
  {
    match kind
    case Main =>
      Optional("description", rec.comment) + Optional("addr:full", rec.address)
      + Optional("addr:postcode", rec.postal_code) + Optional("addr:city", rec.city_label)
    case ParkAndRide =>
      Optional("capacity", NumberText(rec.capacity))
      + Optional("capacity:disabled", if rec.disabled_capacity.Some? then Some(DisabledText(rec.disabled_capacity.value)) else None)
      + Optional("opening", rec.opening)
      + Optional("supervised", if rec.supervised.Some? then Some(SupervisedText(rec.supervised.value)) else None)
      + [Property("operator", "SYTRAL"), Property("network", "TCL"), Property("ref", id)]
    case BikePark =>
      Optional("capacity", NumberText(rec.capacity)) + Optional("description", rec.description)
  }

  /** `add_poi_with_properties`: the POI of a record with id `id` and label `label`. The
    * ticket offices and sales points (GAB, DEP, BET) are hidden. */
  function PoiOf(kind: FileKind, rec: Record, id: string, name: string): Poi
  {
    Poi("TCL:" + rec.poi_type + ":" + id, name, rec.coord, TypeIdOf(kind, rec),
        PropertiesOf(kind, rec, id), rec.poi_type !in ["GAB", "DEP", "BET"])
  }

  /** The id is "TCL:<type code>:<id>", and a POI is visible exactly when its type code is
    * none of GAB, DEP and BET. */
  lemma PoiOfSpec(kind: FileKind, rec: Record, id: string, name: string)
    ensures PoiOf(kind, rec, id, name).id == "TCL:" + rec.poi_type + ":" + id
    ensures !PoiOf(kind, rec, id, name).visible <==>
      rec.poi_type == "GAB" || rec.poi_type == "DEP" || rec.poi_type == "BET"
  {
  }

  /** The properties of a park-and-ride record, in their four optional parts and the fixed
    * tail. */
  lemma ParkAndRideParts(rec: Record, id: string)
    ensures PropertiesOf(ParkAndRide, rec, id)
      == Optional("capacity", NumberText(rec.capacity))
         + Optional("capacity:disabled", if rec.disabled_capacity.Some? then Some(DisabledText(rec.disabled_capacity.value)) else None)
         + Optional("opening", rec.opening)
         + Optional("supervised", if rec.supervised.Some? then Some(SupervisedText(rec.supervised.value)) else None)
         + [Property("operator", "SYTRAL"), Property("network", "TCL"), Property("ref", id)]
  {
  }

  /** A park-and-ride POI ends with the operator, the network and its own id as reference. */
  lemma ParkAndRideTail(rec: Record, id: string)
    ensures |PropertiesOf(ParkAndRide, rec, id)| >= 3
    ensures PropertiesOf(ParkAndRide, rec, id)[|PropertiesOf(ParkAndRide, rec, id)| - 3..]
      == [Property("operator", "SYTRAL"), Property("network", "TCL"), Property("ref", id)]
  {
    ParkAndRideParts(rec, id);
  }

  /** The disabled-capacity property says "no" exactly for zero places. */
  lemma ParkAndRideDisabled(rec: Record, id: string)
    requires rec.disabled_capacity.Some?
    ensures Property("capacity:disabled", "no") in PropertiesOf(ParkAndRide, rec, id) <==> rec.disabled_capacity.value == 0
  {
    ParkAndRideParts(rec, id);
    var ps := PropertiesOf(ParkAndRide, rec, id);
    var cap := Optional("capacity", NumberText(rec.capacity));
    var n := rec.disabled_capacity.value;
    if n > 0 {
      assert Strings.NatToString(n) != "no" by {
        assert Strings.IsDigit(Strings.NatToString(n)[0]);
      }
    }
    assert ps[|cap|] == Property("capacity:disabled", DisabledText(n));
  }

  /** The supervision property says "yes" exactly for the raw value "O". */
  lemma ParkAndRideSupervised(rec: Record, id: string)
    requires rec.supervised.Some?
    ensures Property("supervised", "yes") in PropertiesOf(ParkAndRide, rec, id) <==> rec.supervised.value == "O"
  {
    ParkAndRideParts(rec, id);
    var ps := PropertiesOf(ParkAndRide, rec, id);
    var cap := Optional("capacity", NumberText(rec.capacity));
    var dis := Optional("capacity:disabled", if rec.disabled_capacity.Some? then Some(DisabledText(rec.disabled_capacity.value)) else None);
    var open := Optional("opening", rec.opening);
    assert ps[|cap + dis + open|] == Property("supervised", SupervisedText(rec.supervised.value));
  }

  // ----- One file -----

  /** What a file's loop carries: the extraction and the ids seen in this file. */
  datatype FileState = FileState(ex: Extraction, ids: set<string>)

  /** One record: it must deserialise with a non-empty type code and carry a new id and a
    * label; its type is recorded unless already known, and its POI is pushed. */
  function Step(kind: FileKind, dir: string, st: FileState, row: Option<Record>): Result<FileState, string>
  {
    if row.None? || row.value.poi_type == "" then Err(ReadError(dir, kind))
    else
      var rec := row.value;
      match IdOf(kind, rec)
      case None => Err(UndefinedIdError(FileName(kind)))
      case Some(id) =>
        if id in st.ids then Err(RepeatedIdError(id, FileName(kind)))
        else if LabelOf(kind, rec).None? then Err(MissingLabelPanic)
        else
          var type_id := TypeIdOf(kind, rec);
          var types := if type_id in st.ex.poi_types then st.ex.poi_types
                       else st.ex.poi_types[type_id := PoiType(type_id, rec.poi_type_label)];
          Ok(FileState(Extraction(st.ex.pois + [PoiOf(kind, rec, id, LabelOf(kind, rec).value)], types),
                       st.ids + {id}))
  }

  /** The outcome of reading a file's records into `ex`, with a fresh set of ids. */
  function FileRead(kind: FileKind, dir: string, rows: seq<Option<Record>>, ex: Extraction): Result<FileState, string>
    decreases |rows|
  {
    if rows == [] then Ok(FileState(ex, {}))
    else
      match FileRead(kind, dir, rows[..|rows| - 1], ex)
      case Err(e) => Err(e)
      case Ok(st) => Step(kind, dir, st, rows[|rows| - 1])
  }

  /** A record that can be read: it deserialises with a type code and has an id and a label. */
  predicate RecordOk(kind: FileKind, row: Option<Record>)
  {
    row.Some? && row.value.poi_type != "" && IdOf(kind, row.value).Some? && LabelOf(kind, row.value).Some?
  }

  /** A file that can be read: every record can, and no two records share an id. */
  predicate FileOk(kind: FileKind, rows: seq<Option<Record>>)
  {
    (forall i :: 0 <= i < |rows| ==> RecordOk(kind, rows[i]))
    && forall i, j :: 0 <= i < j < |rows| && rows[i].Some? && rows[j].Some? ==>
         IdOf(kind, rows[i].value) != IdOf(kind, rows[j].value)
  }

  /** The POIs of a readable file's records, in file order. */
  function PoisOf(kind: FileKind, rows: seq<Option<Record>>): seq<Poi>
    requires forall i :: 0 <= i < |rows| ==> RecordOk(kind, rows[i])
    decreases |rows|
  {
    if rows == [] then []
    else
      assert RecordOk(kind, rows[|rows| - 1]);
      var rec := rows[|rows| - 1].value;
      PoisOf(kind, rows[..|rows| - 1]) + [PoiOf(kind, rec, IdOf(kind, rec).value, LabelOf(kind, rec).value)]
  }

  /** The ids of the records. */
  function IdsOf(kind: FileKind, rows: seq<Option<Record>>): set<string>
  {
    set i | 0 <= i < |rows| && rows[i].Some? && IdOf(kind, rows[i].value).Some? :: IdOf(kind, rows[i].value).value
  }

  lemma FileOkSnoc(kind: FileKind, rows: seq<Option<Record>>)
    requires rows != []
    ensures FileOk(kind, rows) <==>
      FileOk(kind, rows[..|rows| - 1]) && RecordOk(kind, rows[|rows| - 1])
      && IdOf(kind, rows[|rows| - 1].value).value !in IdsOf(kind, rows[..|rows| - 1])
  {
    var front := rows[..|rows| - 1];
    var n := |rows| - 1;
    assert forall i :: 0 <= i < n ==> front[i] == rows[i];
    if FileOk(kind, front) && RecordOk(kind, rows[n]) && IdOf(kind, rows[n].value).value !in IdsOf(kind, front) {
      forall i, j | 0 <= i < j < |rows| && rows[i].Some? && rows[j].Some?
        ensures IdOf(kind, rows[i].value) != IdOf(kind, rows[j].value)
      {
        if j == n {
          assert IdOf(kind, front[i].value).value in IdsOf(kind, front);
        }
      }
    }
  }

  /** One record is accepted exactly when it can be read and its id is new to the file; it
    * then appends its POI and records its id. */
  lemma StepSpec(kind: FileKind, dir: string, st: FileState, row: Option<Record>)
    ensures Step(kind, dir, st, row).Ok? <==> RecordOk(kind, row) && IdOf(kind, row.value).value !in st.ids
    ensures Step(kind, dir, st, row).Ok? ==>
      Step(kind, dir, st, row).value.ex.pois
        == st.ex.pois + [PoiOf(kind, row.value, IdOf(kind, row.value).value, LabelOf(kind, row.value).value)]
      && Step(kind, dir, st, row).value.ids == st.ids + {IdOf(kind, row.value).value}
  {
  }

  lemma IdsOfSnoc(kind: FileKind, rows: seq<Option<Record>>)
    requires rows != [] && RecordOk(kind, rows[|rows| - 1])
    ensures IdsOf(kind, rows) == IdsOf(kind, rows[..|rows| - 1]) + {IdOf(kind, rows[|rows| - 1].value).value}
  {
    var front := rows[..|rows| - 1];
    assert forall i :: 0 <= i < |front| ==> front[i] == rows[i];
  }

  /** A file reads without error exactly when it is readable; the POIs of its records are then
    * appended in order and the ids it recorded are those of its records. */
  lemma {:induction false} FileReadSpec(kind: FileKind, dir: string, rows: seq<Option<Record>>, ex: Extraction)
    ensures FileRead(kind, dir, rows, ex).Ok? <==> FileOk(kind, rows)
    ensures FileRead(kind, dir, rows, ex).Ok? ==>
      FileRead(kind, dir, rows, ex).value.ex.pois == ex.pois + PoisOf(kind, rows)
      && FileRead(kind, dir, rows, ex).value.ids == IdsOf(kind, rows)
    decreases |rows|
  {
    if rows != [] {
      var front := rows[..|rows| - 1];
      var last := rows[|rows| - 1];
      FileReadSpec(kind, dir, front, ex);
      FileOkSnoc(kind, rows);
      var prev := FileRead(kind, dir, front, ex);
      assert FileRead(kind, dir, rows, ex) == if prev.Err? then Err(prev.error) else Step(kind, dir, prev.value, last);
      if prev.Ok? {
        StepSpec(kind, dir, prev.value, last);
        if RecordOk(kind, last) {
          IdsOfSnoc(kind, rows);
          SeqFacts.AppendAssoc(ex.pois, PoisOf(kind, front), [PoiOf(kind, last.value, IdOf(kind, last.value).value, LabelOf(kind, last.value).value)]);
        }
      }
    }
  }

  /** The types after a file: those known before keep their label, and a new one has the
    * label of the first record of the file that names it. */
  lemma {:induction false} FileReadTypes(kind: FileKind, dir: string, rows: seq<Option<Record>>, ex: Extraction, st: FileState)
    requires FileRead(kind, dir, rows, ex) == Ok(st)
    ensures forall t :: t in ex.poi_types ==> t in st.ex.poi_types && st.ex.poi_types[t] == ex.poi_types[t]
    ensures forall t :: t in st.ex.poi_types && t !in ex.poi_types ==>
      exists i :: FirstNaming(kind, rows, t, i) && st.ex.poi_types[t] == PoiType(t, rows[i].value.poi_type_label)
    decreases |rows|
  {
    if rows != [] {
      var front := rows[..|rows| - 1];
      var n := |rows| - 1;
      var st0 := FileRead(kind, dir, front, ex).value;
      FileReadTypes(kind, dir, front, ex, st0);
      StepTypes(kind, dir, st0, rows[n], st);
      forall t | t in st.ex.poi_types && t !in ex.poi_types
        ensures exists i :: FirstNaming(kind, rows, t, i) && st.ex.poi_types[t] == PoiType(t, rows[i].value.poi_type_label)
      {
        if t in st0.ex.poi_types {
          var i :| FirstNaming(kind, front, t, i) && st0.ex.poi_types[t] == PoiType(t, front[i].value.poi_type_label);
          FirstNamingSnoc(kind, rows, t, i);
        } else {
          FirstNamingLast(kind, dir, rows, ex, st0, t);
        }
      }
    }
  }

  /** One record keeps the known types and adds at most its own, with its label. */
  lemma StepTypes(kind: FileKind, dir: string, st0: FileState, row: Option<Record>, st: FileState)
    requires Step(kind, dir, st0, row) == Ok(st)
    ensures forall t :: t in st0.ex.poi_types ==> t in st.ex.poi_types && st.ex.poi_types[t] == st0.ex.poi_types[t]
    ensures forall t :: t in st.ex.poi_types && t !in st0.ex.poi_types ==>
      t == TypeIdOf(kind, row.value) && st.ex.poi_types[t] == PoiType(t, row.value.poi_type_label)
  {
  }

  lemma FirstNamingSnoc(kind: FileKind, rows: seq<Option<Record>>, t: string, i: int)
    requires rows != [] && FirstNaming(kind, rows[..|rows| - 1], t, i)
    ensures FirstNaming(kind, rows, t, i) && rows[i] == rows[..|rows| - 1][i]
  {
    var front := rows[..|rows| - 1];
    assert forall j :: 0 <= j <= i ==> rows[j] == front[j];
  }

  lemma FirstNamingLast(kind: FileKind, dir: string, rows: seq<Option<Record>>, ex: Extraction, st0: FileState, t: string)
    requires rows != [] && rows[|rows| - 1].Some? && TypeIdOf(kind, rows[|rows| - 1].value) == t
    requires FileRead(kind, dir, rows[..|rows| - 1], ex) == Ok(st0) && t !in st0.ex.poi_types
    ensures FirstNaming(kind, rows, t, |rows| - 1)
  {
    var front := rows[..|rows| - 1];
    forall j | 0 <= j < |rows| - 1 && rows[j].Some? ensures TypeIdOf(kind, rows[j].value) != t {
      assert rows[j] == front[j];
      TypeNamedKnown(kind, dir, front, ex, st0, j);
    }
  }

  /** Record `i` is the first record of the file to name type `t`. */
  predicate FirstNaming(kind: FileKind, rows: seq<Option<Record>>, t: string, i: int)
  {
    0 <= i < |rows| && rows[i].Some? && TypeIdOf(kind, rows[i].value) == t
    && forall j :: 0 <= j < i && rows[j].Some? ==> TypeIdOf(kind, rows[j].value) != t
  }

  /** After a file is read, the type of each of its records is known. */
  lemma {:induction false} TypeNamedKnown(kind: FileKind, dir: string, rows: seq<Option<Record>>, ex: Extraction, st: FileState, j: nat)
    requires FileRead(kind, dir, rows, ex) == Ok(st) && j < |rows| && rows[j].Some?
    ensures TypeIdOf(kind, rows[j].value) in st.ex.poi_types
    decreases |rows|
  {
    var front := rows[..|rows| - 1];
    var st0 := FileRead(kind, dir, front, ex).value;
    if j < |front| {
      TypeNamedKnown(kind, dir, front, ex, st0, j);
      assert front[j] == rows[j];
    }
  }

  lemma {:induction false} FileReadStopped(kind: FileKind, dir: string, rows: seq<Option<Record>>, ex: Extraction, n: nat)
    requires n <= |rows| && FileRead(kind, dir, rows[..n], ex).Err?
    ensures FileRead(kind, dir, rows, ex) == FileRead(kind, dir, rows[..n], ex)
    decreases |rows|
  {
    if n < |rows| {
      assert rows[..|rows| - 1][..n] == rows[..n];
      FileReadStopped(kind, dir, rows[..|rows| - 1], ex, n);
    } else {
      assert rows[..n] == rows;
    }
  }

  /** `extract_from_main_file`, `extract_from_parcs_relais` and `extract_from_parcs_velos`:
    * the same loop over the records of each file, with a fresh set of ids per file. */
  method ExtractFile(kind: FileKind, dir: string, rows: seq<Option<Record>>, ex: Extraction)
    returns (r: Result<Extraction, string>)
    ensures FileRead(kind, dir, rows, ex).Ok? ==> r == Ok(FileRead(kind, dir, rows, ex).value.ex)
    ensures FileRead(kind, dir, rows, ex).Err? ==> r == Err(FileRead(kind, dir, rows, ex).error)
  {
    var pois := ex.pois;
    var poi_types := ex.poi_types;
    var poi_ids: set<string> := {};
    for k := 0 to |rows|
      invariant FileRead(kind, dir, rows[..k], ex) == Ok(FileState(Extraction(pois, poi_types), poi_ids))
    {
      assert rows[..k + 1][..k] == rows[..k];
      if rows[k].None? || rows[k].value.poi_type == "" {
        FileReadStopped(kind, dir, rows, ex, k + 1);
        return Err(ReadError(dir, kind));
      }
      var rec := rows[k].value;
      var id;
      id, poi_ids := GetPoiIdWithoutCollision(IdOf(kind, rec), poi_ids, FileName(kind));
      if id.Err? {
        FileReadStopped(kind, dir, rows, ex, k + 1);
        return Err(id.error);
      }
      var properties := PropertiesOf(kind, rec, id.value);
      var type_id := TypeIdOf(kind, rec);
      if type_id !in poi_types {
        poi_types := poi_types[type_id := PoiType(type_id, rec.poi_type_label)];
      }
      if LabelOf(kind, rec).None? {
        FileReadStopped(kind, dir, rows, ex, k + 1);
        return Err(MissingLabelPanic);
      }
      pois := pois + [PoiOf(kind, rec, id.value, LabelOf(kind, rec).value)];
    }
    assert rows[..|rows|] == rows;
    r := Ok(Extraction(pois, poi_types));
  }

  // ----- extract_pois -----

  /** The outcome of `extract_pois`: every required file must exist, then the three files are
    * read in turn into one extraction. */
  function Extracted(present: set<string>, dir: string, main: seq<Option<Record>>,
                     park_and_ride: seq<Option<Record>>, bike_park: seq<Option<Record>>): Result<Extraction, string>
  {
    if MainFile !in present then Err(MissingFileError(MainFile))
    else if ParkAndRideFile !in present then Err(MissingFileError(ParkAndRideFile))
    else if BikeParkFile !in present then Err(MissingFileError(BikeParkFile))
    else
      match FileRead(Main, dir, main, Extraction([], map[]))
      case Err(e) => Err(e)
      case Ok(st1) =>
        match FileRead(ParkAndRide, dir, park_and_ride, st1.ex)
        case Err(e) => Err(e)
        case Ok(st2) =>
          match FileRead(BikePark, dir, bike_park, st2.ex)
          case Err(e) => Err(e)
          case Ok(st3) => Ok(st3.ex)
  }

  /** `extract_pois`; the model's POI types are the values of the map. */
  method ExtractPois(present: set<string>, dir: string, main: seq<Option<Record>>,
                     park_and_ride: seq<Option<Record>>, bike_park: seq<Option<Record>>)
    returns (r: Result<Extraction, string>)
    ensures r == Extracted(present, dir, main, park_and_ride, bike_park)
  {
    var required := [MainFile, ParkAndRideFile, BikeParkFile];
    for k := 0 to 3
      invariant forall j :: 0 <= j < k ==> required[j] in present
    {
      if required[k] !in present {
        assert required[0] == MainFile && required[1] == ParkAndRideFile && required[2] == BikeParkFile;
        return Err(MissingFileError(required[k]));
      }
    }
    var ex := ExtractFile(Main, dir, main, Extraction([], map[]));
    if ex.Err? {
      return ex;
    }
    ex := ExtractFile(ParkAndRide, dir, park_and_ride, ex.value);
    if ex.Err? {
      return ex;
    }
    r := ExtractFile(BikePark, dir, bike_park, ex.value);
  }

  /** The extraction succeeds exactly when the three files exist and each is readable on its
    * own (ids are checked file by file, so one id may appear in several files), and then
    * holds the POIs of the main file, then of the park-and-ride file, then of the bicycle
    * parks. */
  lemma ExtractedSpec(present: set<string>, dir: string, main: seq<Option<Record>>,
                      park_and_ride: seq<Option<Record>>, bike_park: seq<Option<Record>>)
    ensures Extracted(present, dir, main, park_and_ride, bike_park).Ok? <==>
      MainFile in present && ParkAndRideFile in present && BikeParkFile in present
      && FileOk(Main, main) && FileOk(ParkAndRide, park_and_ride) && FileOk(BikePark, bike_park)
    ensures Extracted(present, dir, main, park_and_ride, bike_park).Ok? ==>
      Extracted(present, dir, main, park_and_ride, bike_park).value.pois
        == PoisOf(Main, main) + PoisOf(ParkAndRide, park_and_ride) + PoisOf(BikePark, bike_park)
  {
    if MainFile in present && ParkAndRideFile in present && BikeParkFile in present {
      var ex0 := Extraction([], map[]);
      FileReadSpec(Main, dir, main, ex0);
      var r1 := FileRead(Main, dir, main, ex0);
      if r1.Ok? {
        FileReadSpec(ParkAndRide, dir, park_and_ride, r1.value.ex);
        var r2 := FileRead(ParkAndRide, dir, park_and_ride, r1.value.ex);
        if r2.Ok? {
          FileReadSpec(BikePark, dir, bike_park, r2.value.ex);
          var r3 := FileRead(BikePark, dir, bike_park, r2.value.ex);
          assert [] + PoisOf(Main, main) == PoisOf(Main, main);
          if r3.Ok? {
            assert Extracted(present, dir, main, park_and_ride, bike_park) == Ok(r3.value.ex);
          }
        }
      }
    }
  }

  /** A missing file is reported before any record is read, the first missing one in the order
    * main, park-and-ride, bicycle parks. */
  lemma MissingFileFirst(present: set<string>, dir: string, main: seq<Option<Record>>,
                         park_and_ride: seq<Option<Record>>, bike_park: seq<Option<Record>>)
    requires !(MainFile in present && ParkAndRideFile in present && BikeParkFile in present)
    ensures Extracted(present, dir, main, park_and_ride, bike_park).Err?
    ensures Extracted(present, dir, main, park_and_ride, bike_park).error
      == MissingFileError(if MainFile !in present then MainFile
                          else if ParkAndRideFile !in present then ParkAndRideFile else BikeParkFile)
  {
  }

  /** An empty type code fails the file even when everything else is in order. */
  lemma EmptyTypeRejected(kind: FileKind, dir: string, rec: Record, ex: Extraction)
    requires rec.poi_type == ""
    ensures FileRead(kind, dir, [Some(rec)], ex) == Err(ReadError(dir, kind))
  {
    assert [Some(rec)][..0] == [];
  }

  /** The same id in two records of one file is refused, naming the id and the file. */
  lemma RepeatedIdRejected(kind: FileKind, dir: string, a: Record, b: Record, ex: Extraction)
    requires RecordOk(kind, Some(a)) && RecordOk(kind, Some(b)) && IdOf(kind, a) == IdOf(kind, b)
    ensures FileRead(kind, dir, [Some(a), Some(b)], ex) == Err(RepeatedIdError(IdOf(kind, a).value, FileName(kind)))
  {
    var one := [Some(a)];
    var two := [Some(a), Some(b)];
    assert two[..1] == one;
    assert one[..0] == [];
    assert FileRead(kind, dir, one[..0], ex) == Ok(FileState(ex, {}));
    var st := FileRead(kind, dir, one, ex);
    assert st == Step(kind, dir, FileState(ex, {}), Some(a));
    assert st.Ok? && IdOf(kind, a).value in st.value.ids;
  }
}
