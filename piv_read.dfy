/** The reader of PIV daily transportation plans (piv2ntfs/src/piv/read.rs): each vehicle
  * description of a plan becomes a vehicle journey, getting or creating on the way the
  * physical mode, company, network, commercial mode, line, route, stop areas, stop points and
  * the single-date calendar it refers to, and widening the validity period by its date.
  *
  * Dates and times: a date is a (year, month, day) triple compared in calendar order; the
  * stop times of a journey are given as their offsets in seconds from the midnight of the
  * journey's first departure, which is what the date library computes from the timestamps. */
module PivRead {
  import opened Wrappers
  import opened IdCollection
  import Strings
  import TM = TransferModel
  import opened Dates

  // ----- Dates and validity periods -----

  datatype ValidityPeriod = ValidityPeriod(start_date: Date, end_date: Date)

  /** The period before any date is seen: it starts at the last date and ends at the first. */
  const EmptyPeriod := ValidityPeriod(MaximumDate, MinimumDate)

  /** `set_validity_period`: the period widened to cover the date. */
  function SetValidityPeriod(d: Date, vp: ValidityPeriod): (r: ValidityPeriod)
    ensures DateLe(r.start_date, d) && DateLe(r.start_date, vp.start_date)
    ensures DateLe(d, r.end_date) && DateLe(vp.end_date, r.end_date)
    ensures (r.start_date == d || r.start_date == vp.start_date) && (r.end_date == d || r.end_date == vp.end_date)
  {
    ValidityPeriod(MinDate(vp.start_date, d), MaxDate(vp.end_date, d))
  }

  /** The period after widening by each date in turn. */
  function Widened(vp: ValidityPeriod, dates: seq<Date>): ValidityPeriod
    decreases |dates|
  {
    if dates == [] then vp else SetValidityPeriod(dates[|dates| - 1], Widened(vp, dates[..|dates| - 1]))
  }

  /** From the empty period, widening by representable dates gives exactly their earliest and
    * latest date. */
  lemma {:induction false} WidenedSpan(dates: seq<Date>)
    requires dates != [] && forall i :: 0 <= i < |dates| ==> Representable(dates[i])
    ensures Widened(EmptyPeriod, dates).start_date in dates && Widened(EmptyPeriod, dates).end_date in dates
    ensures forall i :: 0 <= i < |dates| ==>
      DateLe(Widened(EmptyPeriod, dates).start_date, dates[i]) && DateLe(dates[i], Widened(EmptyPeriod, dates).end_date)
    decreases |dates|
  {
    var front := dates[..|dates| - 1];
    var last := dates[|dates| - 1];
    if front == [] {
      assert dates == [last];
    } else {
      WidenedSpan(front);
      assert forall i :: 0 <= i < |front| ==> front[i] == dates[i];
    }
  }

  // ----- Date identifiers -----

  /** `%Y`: the year zero-padded to four digits, with a sign outside 0..9999. */
  function YearText(y: int): string
  {
    if 0 <= y <= 9999 then Strings.Padded(Strings.NatToString(y), 4)
    else if y > 9999 then "+" + Strings.NatToString(y)
    else "-" + Strings.Padded(Strings.NatToString(-y), 4)
  }

  /** The date formatted with `%Y%m%d`. */
  function DateId(d: Date): string
  {
    YearText(d.year) + Strings.Padded(Strings.NatToString(d.month), 2) + Strings.Padded(Strings.NatToString(d.day), 2)
  }

  /** A date of years 0 to 9999. */
  predicate FourDigitYear(d: Date)
  {
    0 <= d.year <= 9999 && 1 <= d.month <= 12 && 1 <= d.day <= 31
  }

  lemma PaddedPart(n: nat, width: nat)
    requires 1 <= width && n < Strings.Pow10(width)
    ensures |Strings.Padded(Strings.NatToString(n), width)| == width
    ensures Strings.AllDigits(Strings.Padded(Strings.NatToString(n), width))
    ensures Strings.DigitsValue(Strings.Padded(Strings.NatToString(n), width)) == n
  {
    Strings.NatToStringShort(n, width);
    Strings.PaddedValue(n, width);
  }

  lemma Powers()
    ensures Strings.Pow10(2) == 100 && Strings.Pow10(4) == 10000
  {
    assert Strings.Pow10(1) == 10;
    assert Strings.Pow10(3) == 1000;
  }

  /** For years 0 to 9999 the service id is eight digits whose first four read back to the
    * year, the next two to the month and the last two to the day. */
  lemma DateIdParts(a: Date)
    requires FourDigitYear(a)
    ensures |DateId(a)| == 8 && Strings.AllDigits(DateId(a))
    ensures Strings.DigitsValue(DateId(a)[..4]) == a.year
    ensures Strings.DigitsValue(DateId(a)[4..6]) == a.month
    ensures Strings.DigitsValue(DateId(a)[6..]) == a.day
  {
    Powers();
    PaddedPart(a.year, 4);
    PaddedPart(a.month, 2);
    PaddedPart(a.day, 2);
    var y, m, d := YearText(a.year), Strings.Padded(Strings.NatToString(a.month), 2), Strings.Padded(Strings.NatToString(a.day), 2);
    var s := DateId(a);
    assert s == y + m + d;
    assert s[..4] == y;
    assert s[4..6] == m;
    assert s[6..] == d;
  }

  /** For years 0 to 9999 the service id determines the date. */
  lemma DateIdInjective(a: Date, b: Date)
    requires FourDigitYear(a) && FourDigitYear(b) && DateId(a) == DateId(b)
    ensures a == b
  {
    DateIdParts(a);
    DateIdParts(b);
  }

  // ----- The records read and built -----

  datatype Network = Network(id: string, name: string)
  datatype CommercialMode = CommercialMode(id: string, name: string)
  datatype Line = Line(id: string, name: string, code: Option<string>, network_id: string, commercial_mode_id: string)
  datatype Route = Route(id: string, line_id: string, name: string)
  datatype PhysicalMode = PhysicalMode(id: string, name: string)
  datatype Company = Company(id: string, name: string)
  datatype StopArea = StopArea(id: string, name: string)
  datatype StopPoint = StopPoint(id: string, name: string, stop_area_id: string)
  datatype Calendar = Calendar(id: string, dates: set<Date>)
  datatype Dataset = Dataset(id: string, start_date: Date, end_date: Date)

  /** A stop time; the constant fields (no boarding or alighting duration, not estimated, no
    * local zone, exact precision) are not represented. */
  datatype StopTime = StopTime(stop_point_idx: Idx, departure_time: nat, arrival_time: nat, sequence: nat,
                               pickup_type: nat, drop_off_type: nat)

  datatype VehicleJourney = VehicleJourney(id: string, route_id: string, physical_mode_id: string, company_id: string,
                                           service_id: string, dataset_id: string, codes: set<(string, string)>,
                                           stop_times: seq<StopTime>)

  function NetworkKey(x: Network): string { x.id }
  function CommercialModeKey(x: CommercialMode): string { x.id }
  function LineKey(x: Line): string { x.id }
  function RouteKey(x: Route): string { x.id }
  function PhysicalModeKey(x: PhysicalMode): string { x.id }
  function CompanyKey(x: Company): string { x.id }
  function StopAreaKey(x: StopArea): string { x.id }
  function StopPointKey(x: StopPoint): string { x.id }
  function CalendarKey(x: Calendar): string { x.id }
  function VehicleJourneyKey(x: VehicleJourney): string { x.id }

  datatype Collections = Collections(
    networks: seq<Network>, commercial_modes: seq<CommercialMode>, lines: seq<Line>, routes: seq<Route>,
    physical_modes: seq<PhysicalMode>, companies: seq<Company>, stop_areas: seq<StopArea>,
    stop_points: seq<StopPoint>, calendars: seq<Calendar>, vehicle_journeys: seq<VehicleJourney>,
    datasets: seq<Dataset>, transfers: seq<TM.Transfer>)

  // ----- The plan's records and their conversions -----

  datatype Marque = Marque(code: string, libelle: string)
  datatype Ligne = Ligne(id: string, name: Option<string>, code: Option<string>)
  datatype Emplacement = Emplacement(code: string, libelle: Option<string>)
  datatype ModeTransport = ModeTransport(code_mode: string, code_sous_mode: string, type_mode: string)
  datatype Operateur = Operateur(code_operateur: string, libelle_operateur: string)
  datatype PlanTransportSource = OPE | PTP | PTA

  /** A timestamp of the plan: its date, and its offset in seconds from the midnight of the
    * journey's first departure. */
  datatype Horaire = Horaire(date: Date, offset: int)

  datatype Desserte = Desserte(arrivee: Option<Horaire>, depart: Option<Horaire>, emplacement: Emplacement,
                               rang: nat, pickup: bool, drop_off: bool)

  /** A vehicle description; `arret` is the list of stops as the plan gives it. */
  datatype VehicleDescription = VehicleDescription(
    marque: Marque, ligne: Ligne, mode_transport: ModeTransport, arret: seq<Desserte>, numero: string,
    operateur: Operateur, date_circulation: string, plan_transport_source: PlanTransportSource,
    code_circulation: string)

  function Unwrapped(o: Option<string>): string
  {
    if o.Some? then o.value else ""
  }

  function NetworkOf(m: Marque): Network { Network(m.code, m.libelle) }
  function CommercialModeOf(m: Marque): CommercialMode { CommercialMode(m.code, m.libelle) }
  function LineOf(l: Ligne): Line { Line(l.id, Unwrapped(l.name), l.code, "", "") }
  function RouteOf(l: Ligne): Route { Route(l.id, l.id, Unwrapped(l.name)) }
  function CompanyOf(o: Operateur): Company { Company(o.code_operateur, o.libelle_operateur) }
  function StopAreaOf(e: Emplacement): StopArea { StopArea(e.code, Unwrapped(e.libelle)) }

  /** The stop point of a place for a physical mode: its id is `"{code}:{physical_mode_id}"`
    * and it belongs to the stop area carrying the place's code. */
  function StopPointOf(e: Emplacement, physicalModeId: string): StopPoint
  {
    StopPoint(e.code + ":" + physicalModeId, Unwrapped(e.libelle), e.code)
  }

  // ----- Physical modes -----

  const Bus := PhysicalMode("Bus", "Bus")
  const Coach := PhysicalMode("Coach", "Autocar")
  const LocalTrain := PhysicalMode("LocalTrain", "Train")
  const RailShuttle := PhysicalMode("RailShuttle", "Navette ferrée")
  const Train := PhysicalMode("Train", "TER / Intercités")
  const RapidTransit := PhysicalMode("RapidTransit", "RER / Transilien")
  const Tram := PhysicalMode("Tram", "Tramway")
  const LongDistanceTrain := PhysicalMode("LongDistanceTrain", "Train grande vitesse")

  /** The physical mode of a transport mode, matched on the lower-cased mode, sub-mode and
    * mode type. */
  function PhysicalModeOf(m: ModeTransport): PhysicalMode
  {
    var code, sub, kind := Strings.Lower(m.code_mode), Strings.Lower(m.code_sous_mode), Strings.Lower(m.type_mode);
    if code == "bus" && kind == "routier" then Bus
    else if code == "coach" && kind == "routier" then Coach
    else if code == "rail" && sub == "local" && kind == "ferre" then LocalTrain
    else if code == "rail" && sub == "railshuttle" && kind == "ferre" then RailShuttle
    else if code == "rail" && sub == "regionalrail" && kind == "ferre" then Train
    else if code == "rail" && sub == "suburbanrailway" && kind == "ferre" then RapidTransit
    else if (code == "rail" || code == "tram") && sub == "tramtrain" && kind == "ferre" then Tram
    else LongDistanceTrain
  }

  lemma {:induction false} LowerIdempotent(s: string)
    ensures Strings.Lower(Strings.Lower(s)) == Strings.Lower(s)
  {
    var l := Strings.Lower(s);
    forall i | 0 <= i < |s| ensures Strings.Lower(l)[i] == l[i] {
      assert Strings.LowerChar(Strings.LowerChar(s[i])) == Strings.LowerChar(s[i]);
    }
  }

  /** The choice ignores case: a mode whose three fields are lower-cased maps to the same
    * physical mode. */
  lemma PhysicalModeIgnoresCase(m: ModeTransport)
    ensures PhysicalModeOf(m) == PhysicalModeOf(ModeTransport(Strings.Lower(m.code_mode), Strings.Lower(m.code_sous_mode), Strings.Lower(m.type_mode)))
  {
    LowerIdempotent(m.code_mode);
    LowerIdempotent(m.code_sous_mode);
    LowerIdempotent(m.type_mode);
  }

  /** Any mode other than bus, coach, rail or tram, and any mode type other than road or
    * rail, falls back to the long-distance train. */
  lemma PhysicalModeFallback(m: ModeTransport)
    requires Strings.Lower(m.code_mode) !in {"bus", "coach", "rail", "tram"}
      || Strings.Lower(m.type_mode) !in {"routier", "ferre"}
    ensures PhysicalModeOf(m) == LongDistanceTrain
  {
  }

  /** The id of the physical mode determines its name, so a get-or-create by id never meets a
    * record with the same id and another name. */
  lemma PhysicalModeIdDeterminesName(m: ModeTransport, n: ModeTransport)
    requires PhysicalModeOf(m).id == PhysicalModeOf(n).id
    ensures PhysicalModeOf(m) == PhysicalModeOf(n)
  {
  }

  // ----- The stops of a vehicle, ordered by rank -----

  /** Strictly increasing ranks. */
  predicate ByRang(s: seq<Desserte>)
  {
    forall i, j :: 0 <= i < j < |s| ==> s[i].rang < s[j].rang
  }

  function Rangs(s: seq<Desserte>): set<nat>
  {
    set x | x in s :: x.rang
  }

  /** Inserting into a set ordered by rank alone: a stop whose rank is present is not added. */
  function InsertByRang(s: seq<Desserte>, d: Desserte): seq<Desserte>
  {
    if s == [] then [d]
    else if d.rang < s[0].rang then [d] + s
    else if d.rang == s[0].rang then s
    else [s[0]] + InsertByRang(s[1..], d)
  }

  /** The stops after insertion are those before, and the new one iff its rank was absent. */
  lemma {:induction false} InsertByRangMembers(s: seq<Desserte>, d: Desserte)
    requires ByRang(s)
    ensures forall x :: x in InsertByRang(s, d) <==> x in s || (x == d && d.rang !in Rangs(s))
  {
    if s != [] && d.rang > s[0].rang {
      var t := s[1..];
      InsertByRangMembers(t, d);
      assert s == [s[0]] + t;
      assert d.rang in Rangs(s) <==> d.rang in Rangs(t);
    } else if s != [] && d.rang < s[0].rang {
      assert forall x :: x in s ==> x.rang >= s[0].rang;
    }
  }

  /** Insertion keeps the ranks strictly increasing. */
  lemma {:induction false} InsertByRangSorted(s: seq<Desserte>, d: Desserte)
    requires ByRang(s)
    ensures ByRang(InsertByRang(s, d))
  {
    if s != [] && d.rang > s[0].rang {
      var t := s[1..];
      InsertByRangSorted(t, d);
      InsertByRangMembers(t, d);
      var r := InsertByRang(s, d);
      var rt := InsertByRang(t, d);
      assert r == [s[0]] + rt;
      assert forall x :: x in rt ==> x.rang > s[0].rang;
      assert forall j :: 1 <= j < |r| ==> r[j] == rt[j - 1] && r[j] in rt;
    }
  }

  lemma InsertByRangSpec(s: seq<Desserte>, d: Desserte)
    requires ByRang(s)
    ensures ByRang(InsertByRang(s, d))
    ensures forall x :: x in InsertByRang(s, d) <==> x in s || (x == d && d.rang !in Rangs(s))
    ensures Rangs(InsertByRang(s, d)) == Rangs(s) + {d.rang}
  {
    InsertByRangSorted(s, d);
    InsertByRangMembers(s, d);
  }

  /** The stops as the set of a vehicle holds them: inserted in the plan's order, one per
    * rank, iterated by ascending rank. */
  function Arrets(raw: seq<Desserte>): seq<Desserte>
    decreases |raw|
  {
    if raw == [] then [] else InsertByRang(Arrets(raw[..|raw| - 1]), raw[|raw| - 1])
  }

  /** The stop is the first one of the plan's list with its rank. */
  predicate FirstOfRang(raw: seq<Desserte>, j: int)
    requires 0 <= j < |raw|
  {
    forall k :: 0 <= k < j ==> raw[k].rang != raw[j].rang
  }

  /** The stops are in strictly ascending rank. */
  lemma {:induction false} ArretsSorted(raw: seq<Desserte>)
    ensures ByRang(Arrets(raw))
    decreases |raw|
  {
    if raw != [] {
      ArretsSorted(raw[..|raw| - 1]);
      InsertByRangSorted(Arrets(raw[..|raw| - 1]), raw[|raw| - 1]);
    }
  }

  /** Every rank of the list is kept. */
  lemma {:induction false} ArretsRangs(raw: seq<Desserte>)
    ensures Rangs(Arrets(raw)) == Rangs(raw)
    decreases |raw|
  {
    if raw != [] {
      var front, d := raw[..|raw| - 1], raw[|raw| - 1];
      ArretsRangs(front);
      ArretsSorted(front);
      InsertByRangSpec(Arrets(front), d);
      assert raw == front + [d];
      assert Rangs(raw) == Rangs(front) + {d.rang};
    }
  }

  /** The stop kept for a rank is the first one listed with it. */
  lemma {:induction false} ArretsMembers(raw: seq<Desserte>)
    ensures forall x :: x in Arrets(raw) <==> exists j :: 0 <= j < |raw| && raw[j] == x && FirstOfRang(raw, j)
    decreases |raw|
  {
    if raw != [] {
      var front, d := raw[..|raw| - 1], raw[|raw| - 1];
      ArretsMembers(front);
      ArretsSorted(front);
      ArretsRangs(front);
      InsertByRangMembers(Arrets(front), d);
      assert forall j :: 0 <= j < |front| ==> front[j] == raw[j];
      forall x | x in Arrets(raw)
        ensures exists j :: 0 <= j < |raw| && raw[j] == x && FirstOfRang(raw, j)
      {
        if x in Arrets(front) {
          var j :| 0 <= j < |front| && front[j] == x && FirstOfRang(front, j);
          assert FirstOfRang(raw, j);
        } else {
          assert d.rang !in Rangs(front);
          assert FirstOfRang(raw, |front|) by {
            forall k | 0 <= k < |front| ensures raw[k].rang != d.rang {
              assert front[k] in front;
            }
          }
        }
      }
      forall x | exists j :: 0 <= j < |raw| && raw[j] == x && FirstOfRang(raw, j)
        ensures x in Arrets(raw)
      {
        var j :| 0 <= j < |raw| && raw[j] == x && FirstOfRang(raw, j);
        if j < |front| {
          assert FirstOfRang(front, j);
        } else {
          assert d.rang !in Rangs(front);
        }
      }
    }
  }

  /** The stops are in strictly ascending rank, every rank of the list is kept, and the stop
    * kept for a rank is the first one listed with it. */
  lemma ArretsSpec(raw: seq<Desserte>)
    ensures ByRang(Arrets(raw))
    ensures Rangs(Arrets(raw)) == Rangs(raw)
    ensures forall x :: x in Arrets(raw) <==> exists j :: 0 <= j < |raw| && raw[j] == x && FirstOfRang(raw, j)
  {
    ArretsSorted(raw);
    ArretsRangs(raw);
    ArretsMembers(raw);
  }

  /** The date of the first departure: that of the stop of least rank, if it departs. */
  function DepartureDate(arrets: seq<Desserte>): Option<Date>
  {
    if arrets == [] || arrets[0].depart.None? then None else Some(arrets[0].depart.value.date)
  }

  // ----- Get or create -----

  /** `get_or_create_object_idx`: the record is pushed unless its id is present, and the
    * handle of the record carrying that id is returned. */
  function GetOrCreate<T>(s: seq<T>, key: T -> string, x: T): (r: (seq<T>, Idx))
    ensures r.1 < |r.0| && key(r.0[r.1]) == key(x)
    ensures key(x) !in IdSet(s, key) ==> r.0 == s + [x] && r.1 == |s|
    ensures key(x) in IdSet(s, key) ==> r.0 == s && GetIdx(s, key, key(x)) == Some(r.1)
  {
    match Push(s, key, x)
    case Ok(s') => (s', |s|)
    case Err(_) => (s, GetIdx(s, key, key(x)).value)
  }

  /** Getting or creating keeps the ids distinct and is idempotent. */
  lemma GetOrCreateUnique<T>(s: seq<T>, key: T -> string, x: T)
    requires UniqueIds(s, key)
    ensures UniqueIds(GetOrCreate(s, key, x).0, key)
    ensures GetOrCreate(GetOrCreate(s, key, x).0, key, x) == GetOrCreate(s, key, x)
  {
    var (s1, i) := GetOrCreate(s, key, x);
    UniqueIdsSnoc(s, key, x);
    assert key(s1[i]) == key(x);
    assert key(x) in IdSet(s1, key);
    GetIdxOfMember(s1, key, i);
  }

  /** `get_or_create_line_id`: the line, attached to the network and commercial mode, is
    * pushed unless its id is present; the id returned is the line's own either way. */
  function GetOrCreateLine(l: Ligne, lines: seq<Line>, networkId: string, commercialModeId: string): (r: (seq<Line>, string))
    ensures r.1 == l.id && l.id in IdSet(r.0, LineKey)
    ensures l.id in IdSet(lines, LineKey) ==> r.0 == lines
    ensures l.id !in IdSet(lines, LineKey) ==>
      r.0 == lines + [LineOf(l).(network_id := networkId, commercial_mode_id := commercialModeId)]
  {
    var line := LineOf(l).(network_id := networkId, commercial_mode_id := commercialModeId);
    match Push(lines, LineKey, line)
    case Ok(lines') =>
      assert LineKey(lines'[|lines|]) == l.id;
      (lines', lines'[|lines|].id)
    case Err(e) => (lines, l.id)
  }

  /** `get_or_create_service_id`: the service of a date is the calendar whose id is the date
    * formatted as `%Y%m%d`, created with that single date when absent. */
  function GetOrCreateService(d: Date, calendars: seq<Calendar>): (r: (seq<Calendar>, string))
    ensures r.1 == DateId(d) && r.1 in IdSet(r.0, CalendarKey)
    ensures r.1 in IdSet(calendars, CalendarKey) ==> r.0 == calendars
    ensures r.1 !in IdSet(calendars, CalendarKey) ==> r.0 == calendars + [Calendar(r.1, {d})]
  {
    var id := DateId(d);
    if id in IdSet(calendars, CalendarKey) then (calendars, id)
    else
      var calendars' := calendars + [Calendar(id, {d})];
      assert CalendarKey(calendars'[|calendars|]) == id;
      (calendars + [Calendar(id, {d})], id)
  }

  /** The name rule: a place's label fills a name only while it is empty. */
  function Named(current: string, libelle: Option<string>): string
  {
    if libelle.Some? && current == "" then libelle.value else current
  }

  /** `get_or_create_stop_point_stop_area_idx`: the stop area of the place and its stop point
    * for the physical mode are got or created, and the place's label names whichever of the
    * two has an empty name; the handle of the stop point is returned. */
  function GetOrCreateStop(e: Emplacement, physicalModeId: string, c: Collections): (Collections, Idx)
  {
    var (areas, ai) := GetOrCreate(c.stop_areas, StopAreaKey, StopAreaOf(e));
    var (points, pi) := GetOrCreate(c.stop_points, StopPointKey, StopPointOf(e, physicalModeId));
    match e.libelle
    case None => (c.(stop_areas := areas, stop_points := points), pi)
    case Some(name) =>
      var areas' := if areas[ai].name == "" then areas[ai := areas[ai].(name := name)] else areas;
      var points' := if points[pi].name == "" then points[pi := points[pi].(name := name)] else points;
      (c.(stop_areas := areas', stop_points := points'), pi)
  }

  /** Every record of `s` keeps its position and id in `t`, which may be longer. */
  predicate KeepsIds<T>(s: seq<T>, t: seq<T>, key: T -> string)
  {
    |s| <= |t| && forall i :: 0 <= i < |s| ==> key(t[i]) == key(s[i])
  }

  /** The stop point returned carries the id `"{code}:{mode}"` and belongs to the place's
    * stop area, which exists; records keep their positions and ids, only stop areas and stop
    * points change, and the only records changed in place are the area and the point, by the
    * name rule. */
  lemma GetOrCreateStopSpec(e: Emplacement, physicalModeId: string, c: Collections)
    ensures var (d, i) := GetOrCreateStop(e, physicalModeId, c);
      && i < |d.stop_points| && d.stop_points[i].id == e.code + ":" + physicalModeId
      && e.code in IdSet(d.stop_areas, StopAreaKey)
      && KeepsIds(c.stop_points, d.stop_points, StopPointKey)
      && KeepsIds(c.stop_areas, d.stop_areas, StopAreaKey)
      && d == c.(stop_areas := d.stop_areas, stop_points := d.stop_points)
      && (forall k :: 0 <= k < |c.stop_points| && k != i ==> d.stop_points[k] == c.stop_points[k])
      && d.stop_points[i].name == Named(GetOrCreate(c.stop_points, StopPointKey, StopPointOf(e, physicalModeId)).0[i].name, e.libelle)
  {
    var (d, i) := GetOrCreateStop(e, physicalModeId, c);
    var (areas, ai) := GetOrCreate(c.stop_areas, StopAreaKey, StopAreaOf(e));
    assert d.stop_areas[ai].id == e.code;
  }

  // ----- Stop times -----

  const OutOfRangeMessage := "out of range integral type conversion attempted"

  /** A timestamp as an unsigned 32-bit number of seconds since the base; a negative or too
    * large offset is a conversion error. */
  function TimeSinceBase(h: Option<Horaire>): (r: Result<Option<nat>, string>)
    ensures r.Err? <==> h.Some? && !(0 <= h.value.offset < 0x1_0000_0000)
    ensures r.Ok? ==> (r.value.Some? <==> h.Some?) && (h.Some? ==> r.value.value == h.value.offset)
    ensures r.Err? ==> r.error == OutOfRangeMessage
  {
    match h
    case None => Ok(None)
    case Some(x) => if 0 <= x.offset < 0x1_0000_0000 then Ok(Some(x.offset)) else Err(OutOfRangeMessage)
  }

  function Flag(b: bool): nat { if b then 1 else 0 }

  /** The departure, arrival, pickup and drop-off of a stop, if it gets a stop time: the
    * departure time is converted first, then the arrival time. */
  function StopTimeOf(d: Desserte): Result<Option<(nat, nat, nat, nat)>, string>
  {
    match TimeSinceBase(d.depart)
    case Err(e) => Err(e)
    case Ok(dep) =>
      match TimeSinceBase(d.arrivee)
      case Err(e) => Err(e)
      case Ok(arr) =>
        if dep.Some? && arr.Some? then Ok(Some((dep.value, arr.value, Flag(d.pickup), Flag(d.drop_off))))
        else if dep.Some? then Ok(Some((dep.value, dep.value, Flag(d.pickup), 1)))
        else if arr.Some? then Ok(Some((arr.value, arr.value, 1, Flag(d.drop_off))))
        else Ok(None)
  }

  /** The stop-time rules: a stop without times is skipped; a missing time is the other one;
    * a stop without arrival is a drop-off and one without departure a pickup; otherwise the
    * flags are taken as given. The stop fails iff one of its times is out of range. */
  lemma StopTimeRules(d: Desserte)
    ensures StopTimeOf(d).Err? <==>
      (d.depart.Some? && !(0 <= d.depart.value.offset < 0x1_0000_0000))
      || (d.arrivee.Some? && !(0 <= d.arrivee.value.offset < 0x1_0000_0000))
    ensures StopTimeOf(d) == Ok(None) <==> d.depart.None? && d.arrivee.None?
    ensures StopTimeOf(d).Ok? && StopTimeOf(d).value.Some? ==>
      var (dep, arr, pickup, dropOff) := StopTimeOf(d).value.value;
      && dep == (if d.depart.Some? then d.depart.value.offset else d.arrivee.value.offset)
      && arr == (if d.arrivee.Some? then d.arrivee.value.offset else d.depart.value.offset)
      && pickup == (if d.depart.Some? then Flag(d.pickup) else 1)
      && dropOff == (if d.arrivee.Some? then Flag(d.drop_off) else 1)
  {
  }

  /** The state of `fill_stop_times` after some stops. */
  datatype Fill = Fill(c: Collections, stop_times: seq<StopTime>, error: Option<string>)

  /** The stops in order of rank, each with a stop time getting or creating its stop point;
    * the first conversion error stops the loop. */
  function Filled(c: Collections, physicalModeId: string, arrets: seq<Desserte>): (f: Fill)
    decreases |arrets|
  {
    if arrets == [] then Fill(c, [], None)
    else
      var prev := Filled(c, physicalModeId, arrets[..|arrets| - 1]);
      var d := arrets[|arrets| - 1];
      if prev.error.Some? then prev
      else
        match StopTimeOf(d)
        case Err(e) => Fill(prev.c, prev.stop_times, Some(e))
        case Ok(None) => prev
        case Ok(Some(t)) =>
          var (c', idx) := GetOrCreateStop(d.emplacement, physicalModeId, prev.c);
          Fill(c', prev.stop_times + [StopTime(idx, t.0, t.1, d.rang, t.2, t.3)], None)
  }

  /** Filling changes only stop areas and stop points, keeping their positions and ids. */
  lemma {:induction false} FilledKeeps(c: Collections, physicalModeId: string, arrets: seq<Desserte>)
    ensures var f := Filled(c, physicalModeId, arrets);
      && f.c == c.(stop_areas := f.c.stop_areas, stop_points := f.c.stop_points)
      && KeepsIds(c.stop_points, f.c.stop_points, StopPointKey)
      && KeepsIds(c.stop_areas, f.c.stop_areas, StopAreaKey)
    decreases |arrets|
  {
    if arrets != [] {
      var front := arrets[..|arrets| - 1];
      FilledKeeps(c, physicalModeId, front);
      var prev := Filled(c, physicalModeId, front);
      GetOrCreateStopSpec(arrets[|arrets| - 1].emplacement, physicalModeId, prev.c);
    }
  }

  /** The `k`-th stop time was made for the stop: its sequence is the stop's rank and its
    * stop point is the one of the stop's place for the physical mode. */
  predicate StopTimeFor(f: Fill, k: nat, d: Desserte, physicalModeId: string)
    requires k < |f.stop_times| && f.stop_times[k].stop_point_idx < |f.c.stop_points|
  {
    f.stop_times[k].sequence == d.rang
    && f.c.stop_points[f.stop_times[k].stop_point_idx].id == d.emplacement.code + ":" + physicalModeId
  }

  /** Each stop time points at the stop point `"{code}:{mode}"` of its stop's place, and its
    * sequence is the stop's rank; the stop times follow the stops in order. */
  lemma {:induction false} FilledStopTimes(c: Collections, physicalModeId: string, arrets: seq<Desserte>)
    ensures var f := Filled(c, physicalModeId, arrets);
      && |f.stop_times| <= |arrets|
      && forall k :: 0 <= k < |f.stop_times| ==>
        && f.stop_times[k].stop_point_idx < |f.c.stop_points|
        && exists j :: 0 <= j < |arrets| && StopTimeFor(f, k, arrets[j], physicalModeId)
    decreases |arrets|
  {
    if arrets != [] {
      var front := arrets[..|arrets| - 1];
      var d := arrets[|arrets| - 1];
      FilledStopTimes(c, physicalModeId, front);
      var prev := Filled(c, physicalModeId, front);
      var f := Filled(c, physicalModeId, arrets);
      if prev.error.None? && StopTimeOf(d).Ok? && StopTimeOf(d).value.Some? {
        GetOrCreateStopSpec(d.emplacement, physicalModeId, prev.c);
        forall k | 0 <= k < |f.stop_times|
          ensures f.stop_times[k].stop_point_idx < |f.c.stop_points|
          ensures exists j :: 0 <= j < |arrets| && StopTimeFor(f, k, arrets[j], physicalModeId)
        {
          if k < |prev.stop_times| {
            var j :| 0 <= j < |front| && StopTimeFor(prev, k, front[j], physicalModeId);
            assert front[j] == arrets[j];
            assert StopTimeFor(f, k, arrets[j], physicalModeId);
          } else {
            assert StopTimeFor(f, k, arrets[|arrets| - 1], physicalModeId);
          }
        }
      }
    }
  }

  /** With the stops in ascending rank, the stop times' sequences strictly increase. */
  lemma {:induction false} FilledSequences(c: Collections, physicalModeId: string, arrets: seq<Desserte>)
    requires ByRang(arrets)
    ensures var f := Filled(c, physicalModeId, arrets);
      forall k, l :: 0 <= k < l < |f.stop_times| ==> f.stop_times[k].sequence < f.stop_times[l].sequence
    decreases |arrets|
  {
    if arrets != [] {
      var front := arrets[..|arrets| - 1];
      var d := arrets[|arrets| - 1];
      assert forall j :: 0 <= j < |front| ==> front[j] == arrets[j] && front[j].rang < d.rang;
      FilledSequences(c, physicalModeId, front);
      FilledStopTimes(c, physicalModeId, front);
      var prev := Filled(c, physicalModeId, front);
      var f := Filled(c, physicalModeId, arrets);
      if prev.error.None? && StopTimeOf(d).Ok? && StopTimeOf(d).value.Some? {
        forall k | 0 <= k < |prev.stop_times|
          ensures prev.stop_times[k].sequence < d.rang
        {
          var j :| 0 <= j < |front| && StopTimeFor(prev, k, front[j], physicalModeId);
        }
        assert f.stop_times == prev.stop_times + [f.stop_times[|f.stop_times| - 1]];
        assert f.stop_times[|f.stop_times| - 1].sequence == d.rang;
      }
    }
  }

  function CirculationDateMessage(vehicleJourneyId: string): string
  {
    "Failed to calculate circulation date for vehicle journey '" + vehicleJourneyId + "'."
  }

  /** `fill_stop_times`: with the first departure's date known, the stop times of the stops
    * are appended to the journey, getting or creating the stop points; collections and
    * stop times are kept as they are when a conversion fails. */
  method FillStopTimes(vj: VehicleJourney, vd: VehicleDescription, c: Collections)
    returns (vj': VehicleJourney, d: Collections, r: Result<(), string>)
    ensures DepartureDate(Arrets(vd.arret)).None? ==> vj' == vj && d == c && r == Err(CirculationDateMessage(vj.id))
    ensures DepartureDate(Arrets(vd.arret)).Some? ==>
      var f := Filled(c, vj.physical_mode_id, Arrets(vd.arret));
      && d == f.c && vj' == vj.(stop_times := vj.stop_times + f.stop_times)
      && (r.Ok? <==> f.error.None?) && (r.Err? ==> r.error == f.error.value)
  {
    var arrets := Arrets(vd.arret);
    if DepartureDate(arrets).None? {
      return vj, c, Err(CirculationDateMessage(vj.id));
    }
    vj', d := vj, c;
    var added: seq<StopTime> := [];
    for i := 0 to |arrets|
      invariant Filled(c, vj.physical_mode_id, arrets[..i]) == Fill(d, added, None)
      invariant vj' == vj.(stop_times := vj.stop_times + added)
    {
      var desserte := arrets[i];
      assert arrets[..i + 1][..i] == arrets[..i];
      var t := StopTimeOf(desserte);
      if t.Err? {
        assert Filled(c, vj.physical_mode_id, arrets[..i + 1]).error == Some(t.error);
        FilledStopped(c, vj.physical_mode_id, arrets, i + 1);
        return vj', d, Err(t.error);
      }
      if t.value.Some? {
        var idx;
        d, idx := GetOrCreateStop(desserte.emplacement, vj.physical_mode_id, d).0, GetOrCreateStop(desserte.emplacement, vj.physical_mode_id, d).1;
        var st := StopTime(idx, t.value.value.0, t.value.value.1, desserte.rang, t.value.value.2, t.value.value.3);
        added := added + [st];
        vj' := vj'.(stop_times := vj'.stop_times + [st]);
      }
    }
    assert arrets[..|arrets|] == arrets;
    r := Ok(());
  }

  /** Once a conversion has failed, later stops change nothing. */
  lemma {:induction false} FilledStopped(c: Collections, physicalModeId: string, arrets: seq<Desserte>, n: nat)
    requires 0 < n <= |arrets| && Filled(c, physicalModeId, arrets[..n]).error.Some?
    ensures Filled(c, physicalModeId, arrets) == Filled(c, physicalModeId, arrets[..n])
    decreases |arrets| - n
  {
    if n < |arrets| {
      assert arrets[..n + 1][..n] == arrets[..n];
      FilledStopped(c, physicalModeId, arrets, n + 1);
    } else {
      assert arrets[..n] == arrets;
    }
  }

  // ----- Vehicle journeys -----

  /** The journey id `"{date}:{numero}:{company}:{mode}"`. */
  function JourneyId(dateCirculation: string, numero: string, companyId: string, physicalModeId: string): string
  {
    dateCirculation + ":" + numero + ":" + companyId + ":" + physicalModeId
  }

  function ServiceDateMessage(vehicleJourneyId: string): string
  {
    "Failed to get a service date for vehicle journey '" + vehicleJourneyId + "'."
  }

  /** The collections once the physical mode and the company of a vehicle are got or created. */
  function WithModeAndCompany(vd: VehicleDescription, c: Collections): Collections
  {
    c.(physical_modes := GetOrCreate(c.physical_modes, PhysicalModeKey, PhysicalModeOf(vd.mode_transport)).0,
       companies := GetOrCreate(c.companies, CompanyKey, CompanyOf(vd.operateur)).0)
  }

  /** The collections once the network, commercial mode, line, route and service of a vehicle
    * running on `date` are got or created. */
  function WithReferences(vd: VehicleDescription, c: Collections, date: Date): Collections
  {
    c.(networks := GetOrCreate(c.networks, NetworkKey, NetworkOf(vd.marque)).0,
       commercial_modes := GetOrCreate(c.commercial_modes, CommercialModeKey, CommercialModeOf(vd.marque)).0,
       lines := GetOrCreateLine(vd.ligne, c.lines, vd.marque.code, vd.marque.code).0,
       routes := GetOrCreate(c.routes, RouteKey, RouteOf(vd.ligne)).0,
       calendars := GetOrCreateService(date, c.calendars).0)
  }

  /** The journey of a vehicle before its stop times: the route is the line's, the service is
    * the calendar of its date, the dataset the first one, and its only code is the source's
    * circulation code. */
  function JourneyOf(vd: VehicleDescription, date: Date, datasetId: string): VehicleJourney
  {
    var physicalModeId := PhysicalModeOf(vd.mode_transport).id;
    var companyId := vd.operateur.code_operateur;
    VehicleJourney(JourneyId(vd.date_circulation, vd.numero, companyId, physicalModeId), vd.ligne.id,
                   physicalModeId, companyId, DateId(date), datasetId, {("source", vd.code_circulation)}, [])
  }

  /** The outcome of `manage_vehicle_content`. */
  datatype Managed = Managed(c: Collections, vp: ValidityPeriod, result: Result<(), string>)

  /** `manage_vehicle_content`: what is got or created before a failure stays; the journey is
    * pushed, and the period widened by its date, only when everything succeeds. */
  function ManagedSpec(vd: VehicleDescription, c: Collections, vp: ValidityPeriod): (m: Managed)
    requires c.datasets != []
    ensures m.c.datasets == c.datasets
  {
    var c1 := WithModeAndCompany(vd, c);
    match DepartureDate(Arrets(vd.arret))
    case None => Managed(c1, vp, Err(ServiceDateMessage(NextId(vd))))
    case Some(date) => Completed(vd, WithReferences(vd, c1, date), vp, date, c.datasets[0].id)
  }

  /** The part of `manage_vehicle_content` after the references: the stop times are filled and
    * the journey pushed, then the period is widened by the date. */
  function Completed(vd: VehicleDescription, c: Collections, vp: ValidityPeriod, date: Date, datasetId: string): (m: Managed)
    ensures m.c.datasets == c.datasets
  {
    var physicalModeId := PhysicalModeOf(vd.mode_transport).id;
    var f := Filled(c, physicalModeId, Arrets(vd.arret));
    FilledKeeps(c, physicalModeId, Arrets(vd.arret));
    var vj := JourneyOf(vd, date, datasetId).(stop_times := f.stop_times);
    if f.error.Some? then Managed(f.c, vp, Err(f.error.value))
    else
      match Push(f.c.vehicle_journeys, VehicleJourneyKey, vj)
      case Err(e) => Managed(f.c, vp, Err(e))
      case Ok(vjs) => Managed(f.c.(vehicle_journeys := vjs), SetValidityPeriod(date, vp), Ok(()))
  }

  /** The journey id of a vehicle. */
  function NextId(vd: VehicleDescription): string
  {
    JourneyId(vd.date_circulation, vd.numero, vd.operateur.code_operateur, PhysicalModeOf(vd.mode_transport).id)
  }

  /** The completion appends exactly the journey, with its stop times, and widens the period,
    * iff the stop times convert and the journey id is new; otherwise journeys and period stay.
    * Calendars and routes are left as they are. */
  lemma CompletedOutcome(vd: VehicleDescription, c: Collections, vp: ValidityPeriod, date: Date, datasetId: string)
    ensures var m := Completed(vd, c, vp, date, datasetId);
      && m.c.calendars == c.calendars && m.c.routes == c.routes
      && (m.result.Err? ==> m.vp == vp && m.c.vehicle_journeys == c.vehicle_journeys)
      && (m.result.Ok? ==>
        && m.vp == SetValidityPeriod(date, vp)
        && NextId(vd) !in IdSet(c.vehicle_journeys, VehicleJourneyKey)
        && exists sts :: m.c.vehicle_journeys == c.vehicle_journeys + [JourneyOf(vd, date, datasetId).(stop_times := sts)])
  {
    var physicalModeId := PhysicalModeOf(vd.mode_transport).id;
    var f := Filled(c, physicalModeId, Arrets(vd.arret));
    FilledKeeps(c, physicalModeId, Arrets(vd.arret));
    assert f.c.vehicle_journeys == c.vehicle_journeys;
  }

  /** The references of a vehicle exist once got or created: the calendar of its date and
    * the route of its line. Journeys are left as they are. */
  lemma WithReferencesSpec(vd: VehicleDescription, c: Collections, date: Date)
    ensures var c2 := WithReferences(vd, c, date);
      && DateId(date) in IdSet(c2.calendars, CalendarKey)
      && vd.ligne.id in IdSet(c2.routes, RouteKey)
      && c2.vehicle_journeys == c.vehicle_journeys && c2.datasets == c.datasets
  {
    var (routes, i) := GetOrCreate(c.routes, RouteKey, RouteOf(vd.ligne));
    assert RouteKey(routes[i]) == vd.ligne.id;
  }

  /** A vehicle is read iff its first stop departs, its times convert and its journey id is
    * new; then exactly its journey is appended, with the id `"{date}:{numero}:{company}:{mode}"`
    * and the service of its date, and the period is widened by that date. Otherwise the
    * journeys and the period are unchanged. */
  lemma ManagedOutcome(vd: VehicleDescription, c: Collections, vp: ValidityPeriod)
    requires c.datasets != []
    ensures var m := ManagedSpec(vd, c, vp);
      var date := DepartureDate(Arrets(vd.arret));
      && (m.result.Err? ==> m.vp == vp && m.c.vehicle_journeys == c.vehicle_journeys)
      && (date.None? ==> m.result == Err(ServiceDateMessage(NextId(vd))))
      && (m.result.Ok? ==>
        && date.Some?
        && m.vp == SetValidityPeriod(date.value, vp)
        && NextId(vd) !in IdSet(c.vehicle_journeys, VehicleJourneyKey)
        && DateId(date.value) in IdSet(m.c.calendars, CalendarKey)
        && vd.ligne.id in IdSet(m.c.routes, RouteKey)
        && exists sts :: m.c.vehicle_journeys == c.vehicle_journeys + [JourneyOf(vd, date.value, c.datasets[0].id).(stop_times := sts)])
  {
    var date := DepartureDate(Arrets(vd.arret));
    if date.Some? {
      var c1 := WithModeAndCompany(vd, c);
      WithReferencesSpec(vd, c1, date.value);
      CompletedOutcome(vd, WithReferences(vd, c1, date.value), vp, date.value, c.datasets[0].id);
    }
  }

  /** Managing a vehicle only ever appends to the journeys. */
  lemma ManagedExtends(vd: VehicleDescription, c: Collections, vp: ValidityPeriod)
    requires c.datasets != []
    ensures var m := ManagedSpec(vd, c, vp);
      |c.vehicle_journeys| <= |m.c.vehicle_journeys| && m.c.vehicle_journeys[..|c.vehicle_journeys|] == c.vehicle_journeys
  {
    ManagedOutcome(vd, c, vp);
    var m := ManagedSpec(vd, c, vp);
    if m.result.Ok? {
      var sts :| m.c.vehicle_journeys == c.vehicle_journeys + [JourneyOf(vd, DepartureDate(Arrets(vd.arret)).value, c.datasets[0].id).(stop_times := sts)];
    }
  }

  /** The journey a vehicle gets: id `"{date}:{numero}:{company}:{mode}"`, the line's route,
    * the service of its date and the source's circulation code. */
  lemma JourneyOfSpec(vd: VehicleDescription, date: Date, datasetId: string)
    ensures var vj := JourneyOf(vd, date, datasetId);
      && vj.id == vd.date_circulation + ":" + vd.numero + ":" + vd.operateur.code_operateur + ":" + PhysicalModeOf(vd.mode_transport).id
      && vj.service_id == DateId(date) && vj.route_id == vd.ligne.id
      && vj.codes == {("source", vd.code_circulation)} && vj.dataset_id == datasetId && vj.stop_times == []
  {
  }

  /** `manage_vehicle_content` as the reader runs it. */
  method ManageVehicle(vd: VehicleDescription, c: Collections, vp: ValidityPeriod)
    returns (d: Collections, vp': ValidityPeriod, r: Result<(), string>)
    requires c.datasets != []
    ensures Managed(d, vp', r) == ManagedSpec(vd, c, vp)
  {
    var (physicalModes, pmIdx) := GetOrCreate(c.physical_modes, PhysicalModeKey, PhysicalModeOf(vd.mode_transport));
    var (companies, companyIdx) := GetOrCreate(c.companies, CompanyKey, CompanyOf(vd.operateur));
    d := c.(physical_modes := physicalModes, companies := companies);
    assert d == WithModeAndCompany(vd, c);
    var companyId := companies[companyIdx].id;
    var physicalModeId := physicalModes[pmIdx].id;
    var id := JourneyId(vd.date_circulation, vd.numero, companyId, physicalModeId);
    var date := DepartureDate(Arrets(vd.arret));
    if date.None? {
      return d, vp, Err(ServiceDateMessage(id));
    }
    var (networks, networkIdx) := GetOrCreate(d.networks, NetworkKey, NetworkOf(vd.marque));
    var (commercialModes, cmIdx) := GetOrCreate(d.commercial_modes, CommercialModeKey, CommercialModeOf(vd.marque));
    var (lines, _) := GetOrCreateLine(vd.ligne, d.lines, networks[networkIdx].id, commercialModes[cmIdx].id);
    var (routes, routeIdx) := GetOrCreate(d.routes, RouteKey, RouteOf(vd.ligne));
    var (calendars, serviceId) := GetOrCreateService(date.value, d.calendars);
    var d1 := d;
    d := d.(networks := networks, commercial_modes := commercialModes, lines := lines, routes := routes, calendars := calendars);
    assert d == WithReferences(vd, d1, date.value);
    var vj := VehicleJourney(id, routes[routeIdx].id, physicalModeId, companyId, serviceId, c.datasets[0].id,
                             {("source", vd.code_circulation)}, []);
    d, vp', r := CompleteVehicle(vd, vj, d, vp, date.value, c.datasets[0].id);
  }

  /** The end of `manage_vehicle_content`: stop times, push, validity period. */
  method CompleteVehicle(vd: VehicleDescription, vj: VehicleJourney, c: Collections, vp: ValidityPeriod, date: Date, datasetId: string)
    returns (d: Collections, vp': ValidityPeriod, r: Result<(), string>)
    requires vj == JourneyOf(vd, date, datasetId) && DepartureDate(Arrets(vd.arret)).Some?
    ensures Managed(d, vp', r) == Completed(vd, c, vp, date, datasetId)
  {
    var journey, filled;
    journey, d, filled := FillStopTimes(vj, vd, c);
    assert journey == JourneyOf(vd, date, datasetId).(stop_times := Filled(c, vj.physical_mode_id, Arrets(vd.arret)).stop_times);
    if filled.Err? {
      return d, vp, filled;
    }
    match Push(d.vehicle_journeys, VehicleJourneyKey, journey)
    case Err(e) =>
      return d, vp, Err(e);
    case Ok(vjs) =>
      d := d.(vehicle_journeys := vjs);
    vp' := SetValidityPeriod(date, vp);
    r := Ok(());
  }

  // ----- Daily transportation plans -----

  /** A file of a plan's folder: unreadable, or its entries, each a vehicle description or
    * one that does not deserialize. */
  datatype PlanFile = Unreadable(message: string) | Entries(entries: seq<Option<VehicleDescription>>)

  /** One entry: an invalid one is skipped, a description from another source than PTA is
    * ignored, and a failure to manage a PTA description is skipped. */
  function EntryStep(c: Collections, vp: ValidityPeriod, e: Option<VehicleDescription>): (r: (Collections, ValidityPeriod))
    requires c.datasets != []
    ensures r.0.datasets == c.datasets
  {
    if e.None? || e.value.plan_transport_source != PTA then (c, vp)
    else
      var m := ManagedSpec(e.value, c, vp);
      (m.c, m.vp)
  }

  function EntriesRead(c: Collections, vp: ValidityPeriod, es: seq<Option<VehicleDescription>>): (r: (Collections, ValidityPeriod))
    requires c.datasets != []
    ensures r.0.datasets == c.datasets
    decreases |es|
  {
    if es == [] then (c, vp)
    else
      var prev := EntriesRead(c, vp, es[..|es| - 1]);
      EntryStep(prev.0, prev.1, es[|es| - 1])
  }

  /** The files of a folder read in turn from the empty period; an unreadable file stops the
    * reading with its error, keeping what was read before it. */
  function PlanRead(c: Collections, files: seq<PlanFile>): (r: Managed)
    requires c.datasets != []
    ensures r.c.datasets == c.datasets
    decreases |files|
  {
    if files == [] then Managed(c, EmptyPeriod, Ok(()))
    else
      var prev := PlanRead(c, files[..|files| - 1]);
      if prev.result.Err? then prev
      else
        match files[|files| - 1]
        case Unreadable(message) => Managed(prev.c, prev.vp, Err(message))
        case Entries(es) =>
          var r := EntriesRead(prev.c, prev.vp, es);
          Managed(r.0, r.1, Ok(()))
  }

  /** Only PTA descriptions are read: entries without one change nothing. */
  lemma {:induction false} OnlyPta(c: Collections, vp: ValidityPeriod, es: seq<Option<VehicleDescription>>)
    requires c.datasets != []
    requires forall k :: 0 <= k < |es| ==> es[k].None? || es[k].value.plan_transport_source != PTA
    ensures EntriesRead(c, vp, es) == (c, vp)
    decreases |es|
  {
    if es != [] {
      OnlyPta(c, vp, es[..|es| - 1]);
    }
  }

  /** Reading entries never removes or reorders journeys: the journeys before are a prefix of
    * those after. */
  lemma {:induction false} EntriesKeepJourneys(c: Collections, vp: ValidityPeriod, es: seq<Option<VehicleDescription>>)
    requires c.datasets != []
    ensures var r := EntriesRead(c, vp, es);
      |c.vehicle_journeys| <= |r.0.vehicle_journeys| && r.0.vehicle_journeys[..|c.vehicle_journeys|] == c.vehicle_journeys
    decreases |es|
  {
    if es != [] {
      var front := es[..|es| - 1];
      EntriesKeepJourneys(c, vp, front);
      var prev := EntriesRead(c, vp, front);
      var e := es[|es| - 1];
      if e.Some? && e.value.plan_transport_source == PTA {
        ManagedExtends(e.value, prev.0, prev.1);
        var after := EntriesRead(c, vp, es).0.vehicle_journeys;
        assert after[..|prev.0.vehicle_journeys|][..|c.vehicle_journeys|] == after[..|c.vehicle_journeys|];
      }
    }
  }

  /** The entries of one file. */
  method ReadEntries(es: seq<Option<VehicleDescription>>, c: Collections, vp: ValidityPeriod)
    returns (d: Collections, vp': ValidityPeriod)
    requires c.datasets != []
    ensures (d, vp') == EntriesRead(c, vp, es)
  {
    d, vp' := c, vp;
    for i := 0 to |es|
      invariant (d, vp') == EntriesRead(c, vp, es[..i])
    {
      assert es[..i + 1][..i] == es[..i];
      var e := es[i];
      if e.Some? && e.value.plan_transport_source == PTA {
        var r;
        d, vp', r := ManageVehicle(e.value, d, vp');
      }
    }
    assert es[..|es|] == es;
  }

  /** `read_daily_transportation_plan` up to the validity period it computes. */
  method ReadDailyPlan(files: seq<PlanFile>, c: Collections) returns (d: Collections, vp: ValidityPeriod, r: Result<(), string>)
    requires c.datasets != []
    ensures Managed(d, vp, r) == PlanRead(c, files)
  {
    d, vp, r := c, EmptyPeriod, Ok(());
    for i := 0 to |files|
      invariant Managed(d, vp, r) == PlanRead(c, files[..i]) && r.Ok?
    {
      assert files[..i + 1][..i] == files[..i];
      match files[i]
      case Unreadable(message) =>
        r := Err(message);
        PlanReadStopped(c, files, i + 1);
        return;
      case Entries(es) =>
        d, vp := ReadEntries(es, d, vp);
    }
    assert files[..|files|] == files;
  }

  lemma {:induction false} PlanReadStopped(c: Collections, files: seq<PlanFile>, n: nat)
    requires c.datasets != []
    requires 0 < n <= |files| && PlanRead(c, files[..n]).result.Err?
    ensures PlanRead(c, files) == PlanRead(c, files[..n])
    decreases |files| - n
  {
    if n < |files| {
      assert files[..n + 1][..n] == files[..n];
      PlanReadStopped(c, files, n + 1);
    } else {
      assert files[..n] == files;
    }
  }
}
