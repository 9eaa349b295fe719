/** The KV1 reader (kv12ntfs/src/kv1/read.rs): the identifiers it builds, the calendars of
  * OPERDAYXXX.TMI, the physical and commercial modes of the lines, the trip properties
  * derived from the wheelchair accessibility of the passes, the routes of the journey
  * patterns, the route chosen for each direction of a line, and the notices attached to
  * journeys from NTCASSGNMX.TMI.
  *
  * A row of a file that does not deserialize is `None`. The `BTreeMap`s and `BTreeSet`s the
  * source iterates are held as sets and iterated in ascending order. */
module Kv1Read {
  import opened Wrappers
  import opened IdCollection
  import opened Ordering
  import opened Dates
  import opened Availabilities
  import Strings
  import SeqFacts

  // ----- Identifiers -----

  /** Parts separated by ':', the shape of every identifier the reader formats. */
  function Joined(parts: seq<string>): string
    decreases |parts|
  {
    if parts == [] then ""
    else if |parts| == 1 then parts[0]
    else parts[0] + ":" + Joined(parts[1..])
  }

  predicate ColonFree(s: string)
  {
    forall i :: 0 <= i < |s| ==> s[i] != ':'
  }

  /** The position of the first ':', or the length when there is none. */
  function FirstColon(s: string): nat
  {
    if s == [] then 0 else if s[0] == ':' then 0 else 1 + FirstColon(s[1..])
  }

  lemma {:induction false} FirstColonAfter(a: string, s: string)
    requires ColonFree(a)
    ensures FirstColon(a + ":" + s) == |a|
    decreases |a|
  {
    if a != [] {
      assert (a + ":" + s)[1..] == a[1..] + ":" + s;
      FirstColonAfter(a[1..], s);
    } else {
      assert (a + ":" + s)[0] == ':';
    }
  }

  /** The first ':' after a colon-free part is the separator. */
  lemma SplitAtColon(a: string, s: string, b: string, t: string)
    requires ColonFree(a) && ColonFree(b) && a + ":" + s == b + ":" + t
    ensures a == b && s == t
  {
    var x := a + ":" + s;
    FirstColonAfter(a, s);
    FirstColonAfter(b, t);
    assert a == x[..|a|] && b == x[..|b|];
    assert s == x[|a| + 1..] && t == x[|b| + 1..];
  }

  /** Identifiers joined from the same number of parts, all but the last free of ':', are
    * equal only when all their parts are. */
  lemma {:induction false} JoinedInjective(p: seq<string>, q: seq<string>)
    requires |p| == |q| && Joined(p) == Joined(q)
    requires forall i :: 0 <= i < |p| - 1 ==> ColonFree(p[i]) && ColonFree(q[i])
    ensures p == q
    decreases |p|
  {
    if |p| > 1 {
      SplitAtColon(p[0], Joined(p[1..]), q[0], Joined(q[1..]));
      assert forall i :: 0 <= i < |p| - 2 ==> p[1..][i] == p[i + 1] && q[1..][i] == q[i + 1];
      JoinedInjective(p[1..], q[1..]);
      assert p == [p[0]] + p[1..] && q == [q[0]] + q[1..];
    }
  }

  /** A calendar's id, `"{org}:{schedule}:{type}"`. */
  function ServiceId(org_unit_code: string, schedule_code: string, schedule_type_code: string): string
  {
    org_unit_code + ":" + schedule_code + ":" + schedule_type_code
  }

  /** A journey's id, `"{line}:{journey_pattern}:{journey}:{schedule}"`. */
  function VehicleJourneyId(line_planning_number: string, journey_pattern_code: string, journey_number: string,
                            schedule_code: string): string
  {
    line_planning_number + ":" + journey_pattern_code + ":" + journey_number + ":" + schedule_code
  }

  /** A route's id, `"{line}:{direction}"`. */
  function RouteId(line_planning_number: string, direction: string): string
  {
    line_planning_number + ":" + direction
  }

  lemma JoinedThree(a: string, b: string, c: string)
    ensures Joined([a, b, c]) == a + ":" + b + ":" + c
  {
    assert [a, b, c][1..] == [b, c] && [b, c][1..] == [c];
    assert Joined([b, c]) == b + ":" + c;
  }

  lemma JoinedFour(a: string, b: string, c: string, d: string)
    ensures Joined([a, b, c, d]) == VehicleJourneyId(a, b, c, d)
  {
    assert [a, b, c, d][1..] == [b, c, d];
    JoinedThree(b, c, d);
    var x := a + ":";
    var u := b + ":" + c;
    SeqFacts.AppendAssoc(x, u + ":", d);
    SeqFacts.AppendAssoc(x, u, ":");
    SeqFacts.AppendAssoc(x, b + ":", c);
    SeqFacts.AppendAssoc(x, b, ":");
  }

  /** Service ids determine their parts as long as the organisational unit and schedule codes
    * hold no ':'. */
  lemma ServiceIdInjective(a: string, b: string, c: string, a': string, b': string, c': string)
    requires ColonFree(a) && ColonFree(b) && ColonFree(a') && ColonFree(b')
    requires ServiceId(a, b, c) == ServiceId(a', b', c')
    ensures a == a' && b == b' && c == c'
  {
    JoinedThree(a, b, c);
    JoinedThree(a', b', c');
    JoinedInjective([a, b, c], [a', b', c']);
  }

  /** Journey ids determine their parts as long as the first three hold no ':'. */
  lemma VehicleJourneyIdInjective(p: seq<string>, q: seq<string>)
    requires |p| == 4 && |q| == 4
    requires forall i :: 0 <= i < 3 ==> ColonFree(p[i]) && ColonFree(q[i])
    requires VehicleJourneyId(p[0], p[1], p[2], p[3]) == VehicleJourneyId(q[0], q[1], q[2], q[3])
    ensures p == q
  {
    assert p == [p[0], p[1], p[2], p[3]] && q == [q[0], q[1], q[2], q[3]];
    JoinedFour(p[0], p[1], p[2], p[3]);
    JoinedFour(q[0], q[1], q[2], q[3]);
    JoinedInjective(p, q);
  }

  /** Route ids determine the line and the direction as long as the line holds no ':'. */
  lemma RouteIdInjective(line: string, direction: string, line': string, direction': string)
    requires ColonFree(line) && ColonFree(line')
    requires RouteId(line, direction) == RouteId(line', direction')
    ensures line == line' && direction == direction'
  {
    assert [line, direction][1..] == [direction] && [line', direction'][1..] == [direction'];
    JoinedInjective([line, direction], [line', direction']);
  }

  /** Two different journey patterns can still share a route id when a line number holds a
    * ':': this is how the push of a route can fail. */
  lemma RouteIdCollision()
    ensures RouteId("1:A", "B") == RouteId("1", "A:B")
  {
    assert RouteId("1:A", "B") == "1:A:B";
  }

  function ReadError(filepath: string): string
  {
    "Error reading \"" + filepath + "\""
  }

  // ----- Calendars (`read_operday`) -----

  datatype OperDay = OperDay(org_unit_code: string, schedule_code: string, schedule_type_code: string, valid_date: Date)

  datatype Calendar = Calendar(id: string, dates: set<Date>)

  function CalendarKey(c: Calendar): string { c.id }

  function OperDayServiceId(o: OperDay): string
  {
    ServiceId(o.org_unit_code, o.schedule_code, o.schedule_type_code)
  }

  /** The dates of the calendar carrying `id`; none when there is no such calendar. */
  function DatesOf(cals: seq<Calendar>, id: string): set<Date>
  {
    match GetIdx(cals, CalendarKey, id)
    case Some(i) => cals[i].dates
    case None => {}
  }

  /** One row: its date joins the calendar of its service, which is created when missing. */
  function AddDate(cals: seq<Calendar>, id: string, date: Date): seq<Calendar>
  {
    match GetIdx(cals, CalendarKey, id)
    case Some(i) => cals[i := cals[i].(dates := cals[i].dates + {date})]
    case None => cals + [Calendar(id, {date})]
  }

  /** A row adds its service id, keeps ids distinct, and adds its date to its own calendar
    * and to no other. */
  lemma AddDateSpec(cals: seq<Calendar>, id: string, date: Date)
    ensures IdSet(AddDate(cals, id, date), CalendarKey) == IdSet(cals, CalendarKey) + {id}
    ensures UniqueIds(cals, CalendarKey) ==> UniqueIds(AddDate(cals, id, date), CalendarKey)
    ensures forall x :: DatesOf(AddDate(cals, id, date), x) == DatesOf(cals, x) + (if x == id then {date} else {})
  {
    var r := AddDate(cals, id, date);
    var c := Calendar(id, {date});
    match GetIdx(cals, CalendarKey, id)
    case Some(i) =>
      forall x ensures GetIdx(r, CalendarKey, x) == GetIdx(cals, CalendarKey, x) {
        GetIdxSameKeys(cals, r, CalendarKey, x);
      }
      GetIdxSameKeys(cals, r, CalendarKey, id);
      assert UniqueIds(cals, CalendarKey) ==> UniqueIds(r, CalendarKey) by {
        assert forall j :: 0 <= j < |r| ==> CalendarKey(r[j]) == CalendarKey(cals[j]);
      }
    case None =>
      IdSetAppend(cals, [c], CalendarKey);
      assert IdSet([c], CalendarKey) == {id} by { assert [c][0] == c; }
      UniqueIdsSnoc(cals, CalendarKey, c);
      forall x ensures DatesOf(r, x) == DatesOf(cals, x) + (if x == id then {date} else {}) {
        GetIdxSnoc(cals, CalendarKey, c, x);
      }
  }

  /** The state of the reading loop: the calendars so far and whether a row failed. */
  type OperdayState = (seq<Calendar>, Result<(), string>)

  function OperdayStep(st: OperdayState, row: Option<OperDay>, filepath: string): OperdayState
  {
    if st.1.Err? then st
    else
      match row
      case None => (st.0, Err(ReadError(filepath)))
      case Some(o) => (AddDate(st.0, OperDayServiceId(o), o.valid_date), Ok(()))
  }

  /** `read_operday` over the rows of the file, stopping at the first row that does not
    * deserialize. */
  function OperdaysRead(cals: seq<Calendar>, rows: seq<Option<OperDay>>, filepath: string): OperdayState
    decreases |rows|
  {
    if rows == [] then (cals, Ok(()))
    else OperdayStep(OperdaysRead(cals, rows[..|rows| - 1], filepath), rows[|rows| - 1], filepath)
  }

  lemma OperdaysSnoc(cals: seq<Calendar>, rows: seq<Option<OperDay>>, k: nat, filepath: string)
    requires k < |rows|
    ensures OperdaysRead(cals, rows[..k + 1], filepath) == OperdayStep(OperdaysRead(cals, rows[..k], filepath), rows[k], filepath)
  {
    assert rows[..k + 1][..k] == rows[..k];
  }

  /** Once a row has failed, the rows after it change nothing. */
  lemma {:induction false} OperdaysStopped(cals: seq<Calendar>, rows: seq<Option<OperDay>>, k: nat, filepath: string)
    requires k <= |rows| && OperdaysRead(cals, rows[..k], filepath).1.Err?
    ensures OperdaysRead(cals, rows, filepath) == OperdaysRead(cals, rows[..k], filepath)
    decreases |rows|
  {
    if k == |rows| {
      assert rows[..k] == rows;
    } else {
      var front := rows[..|rows| - 1];
      assert front[..k] == rows[..k];
      OperdaysStopped(cals, front, k, filepath);
    }
  }

  method ReadOperday(cals: seq<Calendar>, rows: seq<Option<OperDay>>, filepath: string)
    returns (cals': seq<Calendar>, r: Result<(), string>)
    ensures (cals', r) == OperdaysRead(cals, rows, filepath)
  {
    cals' := cals;
    for k := 0 to |rows|
      invariant (cals', Ok(())) == OperdaysRead(cals, rows[..k], filepath)
    {
      OperdaysSnoc(cals, rows, k, filepath);
      match rows[k]
      case None =>
        OperdaysStopped(cals, rows, k + 1, filepath);
        return cals', Err(ReadError(filepath));
      case Some(o) =>
        var id := ServiceId(o.org_unit_code, o.schedule_code, o.schedule_type_code);
        match GetIdx(cals', CalendarKey, id)
        case Some(i) =>
          cals' := cals'[i := cals'[i].(dates := cals'[i].dates + {o.valid_date})];
        case None =>
          cals' := cals' + [Calendar(id, {o.valid_date})];
    }
    assert rows[..|rows|] == rows;
    r := Ok(());
  }

  /** The service ids of the rows that deserialize. */
  function RowServiceIds(rows: seq<Option<OperDay>>): set<string>
  {
    set k | 0 <= k < |rows| && rows[k].Some? :: OperDayServiceId(rows[k].value)
  }

  /** The dates of the rows that deserialize and belong to service `id`. */
  function RowDates(rows: seq<Option<OperDay>>, id: string): set<Date>
  {
    set k | 0 <= k < |rows| && rows[k].Some? && OperDayServiceId(rows[k].value) == id :: rows[k].value.valid_date
  }

  lemma RowSetsSnoc(front: seq<Option<OperDay>>, o: OperDay)
    ensures RowServiceIds(front + [Some(o)]) == RowServiceIds(front) + {OperDayServiceId(o)}
    ensures forall x :: RowDates(front + [Some(o)], x) == RowDates(front, x) + (if OperDayServiceId(o) == x then {o.valid_date} else {})
  {
    var rows := front + [Some(o)];
    assert forall k :: 0 <= k < |front| ==> rows[k] == front[k];
    assert rows[|front|] == Some(o);
    forall x ensures RowDates(rows, x) == RowDates(front, x) + (if OperDayServiceId(o) == x then {o.valid_date} else {}) {
      forall d | d in RowDates(rows, x) ensures d in RowDates(front, x) + (if OperDayServiceId(o) == x then {o.valid_date} else {}) {
        var k :| 0 <= k < |rows| && rows[k].Some? && OperDayServiceId(rows[k].value) == x && rows[k].value.valid_date == d;
      }
    }
  }

  /** Reading fails exactly when some row does not deserialize, and the error names the
    * file. */
  lemma {:induction false} OperdaysFail(cals: seq<Calendar>, rows: seq<Option<OperDay>>, filepath: string)
    ensures OperdaysRead(cals, rows, filepath).1.Err? <==> exists k :: 0 <= k < |rows| && rows[k].None?
    ensures OperdaysRead(cals, rows, filepath).1.Err? ==> OperdaysRead(cals, rows, filepath).1.error == ReadError(filepath)
    decreases |rows|
  {
    if rows != [] {
      var front := rows[..|rows| - 1];
      OperdaysFail(cals, front, filepath);
      assert forall k :: 0 <= k < |front| ==> front[k] == rows[k];
    }
  }

  /** A read keeps one calendar per service id. When it succeeds, the service ids are those
    * of the calendars before and of the rows, and each service's dates are its dates before
    * together with the dates of all its rows. */
  lemma {:induction false} OperdaysCalendars(cals: seq<Calendar>, rows: seq<Option<OperDay>>, filepath: string)
    requires UniqueIds(cals, CalendarKey)
    ensures UniqueIds(OperdaysRead(cals, rows, filepath).0, CalendarKey)
    ensures OperdaysRead(cals, rows, filepath).1.Ok? ==>
      IdSet(OperdaysRead(cals, rows, filepath).0, CalendarKey) == IdSet(cals, CalendarKey) + RowServiceIds(rows)
    ensures OperdaysRead(cals, rows, filepath).1.Ok? ==>
      forall x :: DatesOf(OperdaysRead(cals, rows, filepath).0, x) == DatesOf(cals, x) + RowDates(rows, x)
    decreases |rows|
  {
    if rows != [] {
      var front := rows[..|rows| - 1];
      OperdaysCalendars(cals, front, filepath);
      var st := OperdaysRead(cals, front, filepath);
      if st.1.Ok? && rows[|rows| - 1].Some? {
        var o := rows[|rows| - 1].value;
        assert rows == front + [Some(o)];
        AddDateSpec(st.0, OperDayServiceId(o), o.valid_date);
        RowSetsSnoc(front, o);
      }
    }
  }

  // ----- Physical and commercial modes -----

  /** The `MODES` table: KV1 transport types to mode names. */
  const Modes: map<string, string> :=
    map["BUS" := "Bus", "TRAIN" := "Train", "METRO" := "Metro", "TRAM" := "Tramway", "BOAT" := "Ferry"]

  datatype Kv1Line = Kv1Line(data_owner_code: string, id: string, public_number: string, transport_type: string)

  function InvalidModeMessage(transport_type: string): string
  {
    "transport_type=" + transport_type + " is not a valid mode"
  }

  /** The modes of the lines, collected as a `Result`: the first line whose transport type is
    * not in the table stops the collection. */
  function LineModes(lines: seq<Kv1Line>): Result<set<string>, string>
    decreases |lines|
  {
    if lines == [] then Ok({})
    else if lines[0].transport_type !in Modes then Err(InvalidModeMessage(lines[0].transport_type))
    else
      var rest := LineModes(lines[1..]);
      if rest.Err? then rest else Ok({Modes[lines[0].transport_type]} + rest.value)
  }

  /** The collection succeeds iff every line has a known transport type, and then holds the
    * modes of the lines; otherwise it fails on the first line with an unknown one. */
  lemma {:induction false} LineModesSpec(lines: seq<Kv1Line>)
    ensures LineModes(lines).Ok? <==> forall i :: 0 <= i < |lines| ==> lines[i].transport_type in Modes
    ensures LineModes(lines).Ok? ==> forall m :: m in LineModes(lines).value <==>
      exists i :: 0 <= i < |lines| && lines[i].transport_type in Modes && Modes[lines[i].transport_type] == m
    ensures LineModes(lines).Err? ==>
      exists i :: 0 <= i < |lines| && lines[i].transport_type !in Modes
        && LineModes(lines).error == InvalidModeMessage(lines[i].transport_type)
        && forall j :: 0 <= j < i ==> lines[j].transport_type in Modes
    decreases |lines|
  {
    if lines != [] {
      var rest := lines[1..];
      LineModesSpec(rest);
      assert forall i :: 0 <= i < |rest| ==> rest[i] == lines[i + 1];
      if lines[0].transport_type in Modes && LineModes(rest).Err? {
        var i :| 0 <= i < |rest| && rest[i].transport_type !in Modes
          && LineModes(rest).error == InvalidModeMessage(rest[i].transport_type)
          && forall j :: 0 <= j < i ==> rest[j].transport_type in Modes;
        assert lines[i + 1] == rest[i];
      }
    }
  }

  datatype PhysicalMode = PhysicalMode(id: string, name: string)

  datatype CommercialMode = CommercialMode(id: string, name: string)

  function PhysicalModeKey(m: PhysicalMode): string { m.id }

  function CommercialModeKey(m: CommercialMode): string { m.id }

  function PhysicalModesOf(names: seq<string>): seq<PhysicalMode>
  {
    seq(|names|, i requires 0 <= i < |names| => PhysicalMode(names[i], names[i]))
  }

  function CommercialModesOf(names: seq<string>): seq<CommercialMode>
  {
    seq(|names|, i requires 0 <= i < |names| => CommercialMode(names[i], names[i]))
  }

  lemma ModesOfPrefix(names: seq<string>, k: nat)
    requires k < |names|
    ensures PhysicalModesOf(names[..k + 1]) == PhysicalModesOf(names[..k]) + [PhysicalMode(names[k], names[k])]
    ensures CommercialModesOf(names[..k + 1]) == CommercialModesOf(names[..k]) + [CommercialMode(names[k], names[k])]
  {
  }

  /** The `k`-th mode to push is on no line's mode already pushed or present before. */
  lemma ModeIsFresh(physical: seq<PhysicalMode>, commercial: seq<CommercialMode>, lines: seq<Kv1Line>, names: seq<string>, k: nat)
    requires forall i :: 0 <= i < |lines| && lines[i].transport_type in Modes ==>
      Modes[lines[i].transport_type] !in IdSet(physical, PhysicalModeKey)
      && Modes[lines[i].transport_type] !in IdSet(commercial, CommercialModeKey)
    requires LineModes(lines).Ok? && names == SortedStrings(LineModes(lines).value) && k < |names|
    ensures names[k] !in IdSet(physical + PhysicalModesOf(names[..k]), PhysicalModeKey)
    ensures names[k] !in IdSet(commercial + CommercialModesOf(names[..k]), CommercialModeKey)
  {
    LineModesSpec(lines);
    var m := names[k];
    assert m in LineModes(lines).value;
    IdSetAppend(physical, PhysicalModesOf(names[..k]), PhysicalModeKey);
    IdSetAppend(commercial, CommercialModesOf(names[..k]), CommercialModeKey);
    assert forall j :: 0 <= j < k ==> names[j] != m;
    assert m !in IdSet(PhysicalModesOf(names[..k]), PhysicalModeKey);
    assert m !in IdSet(CommercialModesOf(names[..k]), CommercialModeKey);
  }

  /** `make_physical_and_commercial_modes`: fails on the first line with an unknown transport
    * type and adds nothing then; otherwise adds one physical and one commercial mode per
    * distinct mode, with the mode's name as id and name, in ascending order. The modes must
    * be new to both collections (the source pushes them with `unwrap`). */
  method MakePhysicalAndCommercialModes(physical: seq<PhysicalMode>, commercial: seq<CommercialMode>, lines: seq<Kv1Line>)
    returns (physical': seq<PhysicalMode>, commercial': seq<CommercialMode>, r: Result<(), string>)
    requires forall i :: 0 <= i < |lines| && lines[i].transport_type in Modes ==>
      Modes[lines[i].transport_type] !in IdSet(physical, PhysicalModeKey)
      && Modes[lines[i].transport_type] !in IdSet(commercial, CommercialModeKey)
    ensures LineModes(lines).Err? ==>
      physical' == physical && commercial' == commercial && r == Err(LineModes(lines).error)
    ensures LineModes(lines).Ok? ==>
      r == Ok(())
      && physical' == physical + PhysicalModesOf(SortedStrings(LineModes(lines).value))
      && commercial' == commercial + CommercialModesOf(SortedStrings(LineModes(lines).value))
  {
    var modes := LineModes(lines);
    if modes.Err? {
      return physical, commercial, Err(modes.error);
    }
    var names := SortedStrings(modes.value);
    physical', commercial' := physical, commercial;
    for k := 0 to |names|
      invariant physical' == physical + PhysicalModesOf(names[..k])
      invariant commercial' == commercial + CommercialModesOf(names[..k])
    {
      var m := names[k];
      // Both pushes succeed (`unwrap`): the mode is new to the collections.
      ModeIsFresh(physical, commercial, lines, names, k);
      assert m !in IdSet(physical', PhysicalModeKey) && m !in IdSet(commercial', CommercialModeKey);
      physical' := physical' + [PhysicalMode(m, m)];
      commercial' := commercial' + [CommercialMode(m, m)];
      ModesOfPrefix(names, k);
    }
    assert names[..|names|] == names;
    r := Ok(());
  }

  /** The lines of two buses and a boat give the modes Bus and Ferry, in that order. */
  lemma ModesExample()
    ensures var lines := [Kv1Line("do1", "id1", "1", "BUS"), Kv1Line("do2", "id2", "2", "BUS"), Kv1Line("do3", "id3", "3", "BOAT")];
      LineModes(lines) == Ok({"Bus", "Ferry"})
      && PhysicalModesOf(SortedStrings({"Bus", "Ferry"})) == [PhysicalMode("Bus", "Bus"), PhysicalMode("Ferry", "Ferry")]
  {
    var l1 := Kv1Line("do1", "id1", "1", "BUS");
    var l2 := Kv1Line("do2", "id2", "2", "BUS");
    var l3 := Kv1Line("do3", "id3", "3", "BOAT");
    assert [l3][1..] == [];
    assert LineModes([l3]).Ok? && LineModes([l3]).value == {"Ferry"};
    assert [l2, l3][1..] == [l3];
    assert LineModes([l2, l3]).Ok? && LineModes([l2, l3]).value == {"Bus", "Ferry"};
    assert [l1, l2, l3][1..] == [l2, l3];
    assert LineModes([l1, l2, l3]).Ok? && LineModes([l1, l2, l3]).value == {"Bus", "Ferry"};
    var names := SortedStrings({"Bus", "Ferry"});
    assert "Bus" in names && "Ferry" in names;
    assert !StringBelow("Ferry", "Bus");
    assert names == ["Bus", "Ferry"];
  }

  /** An unknown transport type is refused with the message naming it. */
  lemma UnknownModeExample()
    ensures LineModes([Kv1Line("do1", "id1", "1", "BUS"), Kv1Line("do2", "id2", "2", "UNKNOWN")])
      == Err("transport_type=UNKNOWN is not a valid mode")
  {
    var l1 := Kv1Line("do1", "id1", "1", "BUS");
    var l2 := Kv1Line("do2", "id2", "2", "UNKNOWN");
    assert [l1, l2][1..] == [l2];
    assert "UNKNOWN" !in Modes;
    assert LineModes([l2]) == Err(InvalidModeMessage("UNKNOWN"));
    assert LineModes([l1, l2]) == Err(InvalidModeMessage("UNKNOWN"));
    assert InvalidModeMessage("UNKNOWN") == "transport_type=UNKNOWN is not a valid mode";
  }

  // ----- Trip properties -----

  datatype Accessibility = Accessible | NotAccessible | Unknown

  /** The availability of a journey from the accessibilities of its passes. */
  function AvailabilityOf(acc: set<Accessibility>): Availability
  {
    if |acc| == 1 then
      if Accessible in acc then Available
      else if NotAccessible in acc then NotAvailable
      else InformationNotAvailable
    else InformationNotAvailable
  }

  lemma SingletonSet(acc: set<Accessibility>, x: Accessibility)
    requires |acc| == 1 && x in acc
    ensures acc == {x}
  {
    assert |acc - {x}| == 0;
  }

  /** A journey is available iff all its passes are accessible, not available iff all are
    * not accessible, and otherwise the information is not available. */
  lemma AvailabilitySpec(acc: set<Accessibility>)
    ensures AvailabilityOf(acc) == Available <==> acc == {Accessible}
    ensures AvailabilityOf(acc) == NotAvailable <==> acc == {NotAccessible}
    ensures AvailabilityOf(acc) == InformationNotAvailable <==> acc != {Accessible} && acc != {NotAccessible}
  {
    if |acc| == 1 {
      if Accessible in acc {
        SingletonSet(acc, Accessible);
      } else if NotAccessible in acc {
        SingletonSet(acc, NotAccessible);
      }
    }
  }

  /** The availabilities in order of first appearance, each once. */
  function Distinct(avs: seq<Availability>): seq<Availability>
    decreases |avs|
  {
    if avs == [] then []
    else
      var d := Distinct(avs[..|avs| - 1]);
      if avs[|avs| - 1] in d then d else d + [avs[|avs| - 1]]
  }

  predicate NoDuplicates<T(==)>(s: seq<T>)
  {
    forall i, j :: 0 <= i < j < |s| ==> s[i] != s[j]
  }

  /** The position of the first occurrence. */
  function FirstIndex<T(==)>(s: seq<T>, x: T): (i: nat)
    requires x in s
    ensures i < |s| && s[i] == x && forall j :: 0 <= j < i ==> s[j] != x
  {
    if s[0] == x then 0 else 1 + FirstIndex(s[1..], x)
  }

  lemma FirstIndexPrefix<T>(s: seq<T>, t: seq<T>, x: T)
    requires x in s
    ensures FirstIndex(s + t, x) == FirstIndex(s, x)
  {
    var i := FirstIndex(s, x);
    var j := FirstIndex(s + t, x);
    assert (s + t)[i] == x;
  }

  /** `Distinct` keeps exactly the availabilities that occur. */
  lemma {:induction false} DistinctMembers(avs: seq<Availability>)
    ensures forall a :: a in Distinct(avs) <==> a in avs
    decreases |avs|
  {
    if avs != [] {
      DistinctMembers(avs[..|avs| - 1]);
      assert avs == avs[..|avs| - 1] + [avs[|avs| - 1]];
    }
  }

  /** `Distinct` lists every availability that occurs, once, in order of first appearance. */
  lemma {:induction false} DistinctSpec(avs: seq<Availability>)
    ensures NoDuplicates(Distinct(avs))
    ensures forall a :: a in Distinct(avs) <==> a in avs
    ensures forall i, j :: 0 <= i < j < |Distinct(avs)| ==>
      FirstIndex(avs, Distinct(avs)[i]) < FirstIndex(avs, Distinct(avs)[j])
    decreases |avs|
  {
    if avs != [] {
      var front := avs[..|avs| - 1];
      var a := avs[|avs| - 1];
      DistinctSpec(front);
      assert avs == front + [a];
      forall x | x in front
        ensures FirstIndex(avs, x) == FirstIndex(front, x)
      {
        FirstIndexPrefix(front, [a], x);
      }
      if a !in front {
        assert FirstIndex(avs, a) == |front| by {
          assert forall i :: 0 <= i < |front| ==> front[i] == avs[i];
        }
      }
    }
  }

  /** What was numbered after part of the journeys stays numbered the same after all. */
  lemma {:induction false} DistinctPrefix(avs: seq<Availability>, k: nat)
    requires k <= |avs|
    ensures Distinct(avs[..k]) <= Distinct(avs)
    decreases |avs|
  {
    if k < |avs| {
      var front := avs[..|avs| - 1];
      assert front[..k] == avs[..k];
      DistinctPrefix(front, k);
    } else {
      assert avs[..k] == avs;
    }
  }

  /** There are three availabilities, so at most three trip properties. */
  lemma DistinctAtMostThree(avs: seq<Availability>)
    ensures |Distinct(avs)| <= 3
  {
    DistinctSpec(avs);
    var d := Distinct(avs);
    assert |d| > 3 ==> d[0] != d[1] && d[0] != d[2] && d[0] != d[3] && d[1] != d[2] && d[1] != d[3] && d[2] != d[3];
  }

  datatype TripProperty = TripProperty(id: string, wheelchair_accessible: Availability)

  function TripPropertyKey(tp: TripProperty): string { tp.id }

  /** The trip properties, the `k`-th availability of `numbered` carrying the id `k`. */
  function TripPropertiesOf(numbered: seq<Availability>): seq<TripProperty>
  {
    seq(|numbered|, i requires 0 <= i < |numbered| => TripProperty(Strings.NatToString(i + 1), numbered[i]))
  }

  /** The trip properties come sorted by id as strings, which for at most three of them is the
    * order they were numbered in, and their ids are distinct. */
  lemma TripPropertiesSorted(numbered: seq<Availability>)
    requires |numbered| <= 3
    ensures forall i, j :: 0 <= i < j < |numbered| ==>
      StringBelow(TripPropertiesOf(numbered)[i].id, TripPropertiesOf(numbered)[j].id)
    ensures UniqueIds(TripPropertiesOf(numbered), TripPropertyKey)
  {
    assert Strings.NatToString(1) == "1" && Strings.NatToString(2) == "2" && Strings.NatToString(3) == "3";
  }

  datatype VehicleJourney = VehicleJourney(id: string, route_id: string, trip_property_id: Option<string>, comment_links: set<Idx>)

  function VehicleJourneyKey(vj: VehicleJourney): string { vj.id }

  /** The availabilities of the journeys in ascending order of journey id. */
  function JourneyAvailabilities(accs: map<string, set<Accessibility>>): seq<Availability>
  {
    var ids := SortedStrings(accs.Keys);
    seq(|ids|, i requires 0 <= i < |ids| => AvailabilityOf(accs[ids[i]]))
  }

  /** The trip-property id journey `id` receives: the rank of its availability in order of
    * first appearance over the journeys sorted by id. */
  function TripPropertyId(accs: map<string, set<Accessibility>>, id: string): string
    requires id in accs
  {
    Strings.NatToString(TripPropertyNumber(accs, id))
  }

  /** The number behind `TripPropertyId`. */
  function TripPropertyNumber(accs: map<string, set<Accessibility>>, id: string): nat
    requires id in accs
  {
    AvailabilityNumbered(accs, id);
    FirstIndex(Distinct(JourneyAvailabilities(accs)), AvailabilityOf(accs[id])) + 1
  }

  /** Every journey's availability is among those numbered. */
  lemma AvailabilityNumbered(accs: map<string, set<Accessibility>>, id: string)
    requires id in accs
    ensures AvailabilityOf(accs[id]) in Distinct(JourneyAvailabilities(accs))
  {
    var avs := JourneyAvailabilities(accs);
    var ids := SortedStrings(accs.Keys);
    assert avs[FirstIndex(ids, id)] == AvailabilityOf(accs[id]);
    DistinctMembers(avs);
  }

  /** The journeys, every one of `accs` carrying its trip-property id. */
  function WithTripProperties(vjs: seq<VehicleJourney>, accs: map<string, set<Accessibility>>): (r: seq<VehicleJourney>)
    ensures |r| == |vjs|
    ensures forall i :: 0 <= i < |vjs| ==> r[i].id == vjs[i].id
  {
    seq(|vjs|, i requires 0 <= i < |vjs| =>
      if vjs[i].id in accs then vjs[i].(trip_property_id := Some(TripPropertyId(accs, vjs[i].id))) else vjs[i])
  }

  /** The journeys part way: only those of `accs` listed in `done` carry their id yet. */
  function WithTripPropertiesAmong(vjs: seq<VehicleJourney>, accs: map<string, set<Accessibility>>, done: seq<string>): (r: seq<VehicleJourney>)
  {
    seq(|vjs|, i requires 0 <= i < |vjs| =>
      if vjs[i].id in accs && vjs[i].id in done then vjs[i].(trip_property_id := Some(TripPropertyId(accs, vjs[i].id))) else vjs[i])
  }

  lemma WithTripPropertiesAll(vjs: seq<VehicleJourney>, accs: map<string, set<Accessibility>>, done: seq<string>)
    requires forall x :: x in accs ==> x in done
    ensures WithTripPropertiesAmong(vjs, accs, done) == WithTripProperties(vjs, accs)
  {
  }

  /** Numbering one more availability: `Distinct` over a longer prefix. */
  lemma DistinctSnoc(avs: seq<Availability>, k: nat)
    requires k < |avs|
    ensures Distinct(avs[..k + 1]) ==
      if avs[k] in Distinct(avs[..k]) then Distinct(avs[..k]) else Distinct(avs[..k]) + [avs[k]]
  {
    assert avs[..k + 1][..k] == avs[..k];
  }

  /** The number an availability receives when met at the `k`-th journey is the one it has
    * once all journeys are numbered. */
  lemma NumberingStable(accs: map<string, set<Accessibility>>, k: nat, id: string, a: Availability, numbered: seq<Availability>)
    requires k < |SortedStrings(accs.Keys)| && id == SortedStrings(accs.Keys)[k]
    requires a == AvailabilityOf(accs[id]) && numbered == Distinct(JourneyAvailabilities(accs)[..k + 1])
    ensures a in numbered && FirstIndex(numbered, a) + 1 == TripPropertyNumber(accs, id)
  {
    var ids := SortedStrings(accs.Keys);
    var avs := JourneyAvailabilities(accs);
    assert avs[..k + 1][k] == a;
    DistinctMembers(avs[..k + 1]);
    DistinctPrefix(avs, k + 1);
    var all := Distinct(avs);
    assert all == numbered + all[|numbered|..];
    FirstIndexPrefix(numbered, all[|numbered|..], a);
    assert FirstIndex(numbered, a) == FirstIndex(all, a);
  }

  /** Giving journey `i` its trip property extends the journeys done by its id. */
  lemma WithTripPropertiesStep(vjs: seq<VehicleJourney>, accs: map<string, set<Accessibility>>, done: seq<string>, i: nat)
    requires UniqueIds(vjs, VehicleJourneyKey)
    requires i < |vjs| && vjs[i].id in accs
    ensures var w := WithTripPropertiesAmong(vjs, accs, done);
      w[i := w[i].(trip_property_id := Some(TripPropertyId(accs, vjs[i].id)))]
      == WithTripPropertiesAmong(vjs, accs, done + [vjs[i].id])
  {
  }

  /** Numbering leaves the journey ids, and so their positions, as they were. */
  lemma WithTripPropertiesKeys(vjs: seq<VehicleJourney>, accs: map<string, set<Accessibility>>, done: seq<string>, id: string)
    ensures GetIdx(WithTripPropertiesAmong(vjs, accs, done), VehicleJourneyKey, id) == GetIdx(vjs, VehicleJourneyKey, id)
  {
    var w := WithTripPropertiesAmong(vjs, accs, done);
    assert |w| == |vjs| && forall i :: 0 <= i < |vjs| ==> VehicleJourneyKey(vjs[i]) == VehicleJourneyKey(w[i]);
    GetIdxSameKeys(vjs, w, VehicleJourneyKey, id);
  }

  /** One turn of `make_trip_properties`: journey `k` in id order is found and takes the
    * number of its availability, which keeps the journeys done a prefix of the sorted ids. */
  lemma TripPropertyStep(accs: map<string, set<Accessibility>>, vjs: seq<VehicleJourney>, k: nat, id: string,
                         a: Availability, w: seq<VehicleJourney>, numbered: seq<Availability>, i: nat,
                         number: nat, tp: string)
    requires UniqueIds(vjs, VehicleJourneyKey)
    requires k < |SortedStrings(accs.Keys)| && id == SortedStrings(accs.Keys)[k] && a == AvailabilityOf(accs[id])
    requires w == WithTripPropertiesAmong(vjs, accs, SortedStrings(accs.Keys)[..k])
    requires numbered == Distinct(JourneyAvailabilities(accs)[..k + 1])
    requires GetIdx(w, VehicleJourneyKey, id) == Some(i) && a in numbered
    requires number == FirstIndex(numbered, a) + 1 && tp == Strings.NatToString(number)
    ensures w[i := w[i].(trip_property_id := Some(tp))] == WithTripPropertiesAmong(vjs, accs, SortedStrings(accs.Keys)[..k + 1])
  {
    var ids := SortedStrings(accs.Keys);
    NumberingStable(accs, k, id, a, numbered);
    assert vjs[i].id == id;
    WithTripPropertiesStep(vjs, accs, ids[..k], i);
    SeqFacts.PrefixSnoc(ids, k);
  }

  /** `entry(..).or_insert_with(..)` on the trip properties: the number of availability `a`,
    * numbering it next when it is new. */
  method EntryOrInsert(numbered: seq<Availability>, a: Availability) returns (numbered': seq<Availability>, number: nat)
    ensures numbered' == if a in numbered then numbered else numbered + [a]
    ensures a in numbered' && number == FirstIndex(numbered', a) + 1
  {
    numbered' := numbered;
    if a !in numbered {
      numbered' := numbered + [a];
    }
    number := FirstIndex(numbered', a) + 1;
  }

  /** One turn of the loop of `make_trip_properties`: the `k`-th journey in id order takes
    * the number of its availability. */
  method NumberJourney(accs: map<string, set<Accessibility>>, vjs: seq<VehicleJourney>, k: nat,
                       numbered: seq<Availability>, w: seq<VehicleJourney>)
    returns (numbered': seq<Availability>, w': seq<VehicleJourney>)
    requires UniqueIds(vjs, VehicleJourneyKey)
    requires forall id {:trigger id in IdSet(vjs, VehicleJourneyKey)} :: id in accs ==> id in IdSet(vjs, VehicleJourneyKey)
    requires k < |SortedStrings(accs.Keys)|
    requires numbered == Distinct(JourneyAvailabilities(accs)[..k])
    requires w == WithTripPropertiesAmong(vjs, accs, SortedStrings(accs.Keys)[..k])
    ensures numbered' == Distinct(JourneyAvailabilities(accs)[..k + 1])
    ensures w' == WithTripPropertiesAmong(vjs, accs, SortedStrings(accs.Keys)[..k + 1])
  {
    var ids := SortedStrings(accs.Keys);
    var a := AvailabilityOf(accs[ids[k]]);
    DistinctSnoc(JourneyAvailabilities(accs), k);
    var number;
    numbered', number := EntryOrInsert(numbered, a);
    assert ids[k] in IdSet(vjs, VehicleJourneyKey);
    NumberingStable(accs, k, ids[k], a, numbered');
    var id := Strings.NatToString(number);
    // The journey is there: `get_mut(..).unwrap()`.
    WithTripPropertiesKeys(vjs, accs, ids[..k], ids[k]);
    var i := GetIdx(w, VehicleJourneyKey, ids[k]).value;
    TripPropertyStep(accs, vjs, k, ids[k], a, w, numbered', i, number, id);
    w' := w[i := w[i].(trip_property_id := Some(id))];
  }

  /** `make_trip_properties`: each journey of `accs`, in ascending order of id, takes the trip
    * property of its availability, created with the next number the first time that
    * availability is met; the trip properties come out sorted by id. The map of trip
    * properties and its counter are held as the availabilities in the order they were
    * numbered. Every journey of `accs` exists (the source looks it up with `unwrap`). */
  method MakeTripProperties(accs: map<string, set<Accessibility>>, vjs: seq<VehicleJourney>)
    returns (vjs': seq<VehicleJourney>, tps: seq<TripProperty>)
    requires UniqueIds(vjs, VehicleJourneyKey)
    requires forall id {:trigger id in IdSet(vjs, VehicleJourneyKey)} :: id in accs ==> id in IdSet(vjs, VehicleJourneyKey)
    ensures tps == TripPropertiesOf(Distinct(JourneyAvailabilities(accs)))
    ensures vjs' == WithTripProperties(vjs, accs)
  {
    var ids := SortedStrings(accs.Keys);
    var avs := JourneyAvailabilities(accs);
    var numbered: seq<Availability> := [];
    vjs' := vjs;
    for k := 0 to |ids|
      invariant numbered == Distinct(avs[..k])
      invariant vjs' == WithTripPropertiesAmong(vjs, accs, ids[..k])
    {
      numbered, vjs' := NumberJourney(accs, vjs, k, numbered, vjs');
    }
    SeqFacts.WholePrefix(avs);
    SeqFacts.WholePrefix(ids);
    WithTripPropertiesAll(vjs, accs, ids);
    tps := TripPropertiesOf(numbered);
  }

  /** One trip property per availability that occurs, each with its own id. */
  lemma TripPropertiesDistinct(accs: map<string, set<Accessibility>>)
    ensures var tps := TripPropertiesOf(Distinct(JourneyAvailabilities(accs)));
      UniqueIds(tps, TripPropertyKey)
      && forall i, j :: 0 <= i < j < |tps| ==> tps[i].wheelchair_accessible != tps[j].wheelchair_accessible
  {
    var avs := JourneyAvailabilities(accs);
    DistinctSpec(avs);
    DistinctAtMostThree(avs);
    TripPropertiesSorted(Distinct(avs));
  }

  /** Every journey of `accs` is given the id of a trip property carrying its availability. */
  lemma TripPropertiesCover(accs: map<string, set<Accessibility>>, id: string)
    requires id in accs
    ensures TripProperty(TripPropertyId(accs, id), AvailabilityOf(accs[id]))
      in TripPropertiesOf(Distinct(JourneyAvailabilities(accs)))
  {
    var d := Distinct(JourneyAvailabilities(accs));
    var a := AvailabilityOf(accs[id]);
    AvailabilityNumbered(accs, id);
    assert TripPropertiesOf(d)[FirstIndex(d, a)] == TripProperty(TripPropertyId(accs, id), a);
  }

  /** Every trip property carries the availability of some journey. */
  lemma TripPropertiesUsed(accs: map<string, set<Accessibility>>, i: nat)
    requires i < |TripPropertiesOf(Distinct(JourneyAvailabilities(accs)))|
    ensures exists id ::
        id in accs
        && TripPropertiesOf(Distinct(JourneyAvailabilities(accs)))[i].wheelchair_accessible == AvailabilityOf(accs[id])
  {
    var avs := JourneyAvailabilities(accs);
    var ids := SortedStrings(accs.Keys);
    var d := Distinct(avs);
    DistinctMembers(avs);
    assert d[i] in avs;
    var k := FirstIndex(avs, d[i]);
    assert ids[k] in accs && avs[k] == AvailabilityOf(accs[ids[k]]);
  }

  // ----- Routes -----

  datatype Jopa = Jopa(line_planning_number: string, direction: string, data_owner_code: string, journey_pattern_code: string)

  datatype Route = Route(id: string, name: string, direction_type: Option<string>, line_id: string)

  function RouteKey(r: Route): string { r.id }

  /** The route of a line and direction; its name is generated later. */
  function RouteOf(line_id: string, direction: string): (r: Route)
    ensures r.id == RouteId(line_id, direction) && r.line_id == line_id && r.name == ""
    ensures r.direction_type == Some("forward") <==> direction == "1" || direction == "A"
    ensures r.direction_type == Some("backward") <==> !(direction == "1" || direction == "A")
  {
    var direction_type := if direction == "1" || direction == "A" then "forward" else "backward";
    Route(RouteId(line_id, direction), "", Some(direction_type), line_id)
  }

  /** Some journey runs on the route. */
  predicate Referenced(vjs: seq<VehicleJourney>, route_id: string)
  {
    exists i :: 0 <= i < |vjs| && vjs[i].route_id == route_id
  }

  /** The (line, direction) keys of the journey patterns, in ascending order. */
  function JopaKeys(jopas: seq<Jopa>): seq<(string, string)>
  {
    PairOrder();
    Ascending(set j | j in jopas :: (j.line_planning_number, j.direction), PairBelow)
  }

  /** The routes of the keys that some journey runs on, in the order of the keys. */
  function NewRoutes(keys: seq<(string, string)>, vjs: seq<VehicleJourney>): seq<Route>
    decreases |keys|
  {
    if keys == [] then []
    else
      var front := NewRoutes(keys[..|keys| - 1], vjs);
      var k := keys[|keys| - 1];
      if Referenced(vjs, RouteId(k.0, k.1)) then front + [RouteOf(k.0, k.1)] else front
  }

  lemma {:induction false} NewRoutesSplit(keys: seq<(string, string)>, vjs: seq<VehicleJourney>, n: nat)
    requires n <= |keys|
    ensures NewRoutes(keys, vjs) == NewRoutes(keys[..n], vjs) + NewRoutes(keys[n..], vjs)
    decreases |keys|
  {
    if n == |keys| {
      assert keys[..n] == keys && keys[n..] == [];
    } else {
      var front := keys[..|keys| - 1];
      NewRoutesSplit(front, vjs, n);
      assert front[..n] == keys[..n];
      assert keys[n..][..|keys[n..]| - 1] == front[n..];
    }
  }

  lemma NewRoutesStep(keys: seq<(string, string)>, vjs: seq<VehicleJourney>, k: nat)
    requires k < |keys|
    ensures NewRoutes(keys[..k + 1], vjs) == NewRoutes(keys[..k], vjs) +
      (if Referenced(vjs, RouteId(keys[k].0, keys[k].1)) then [RouteOf(keys[k].0, keys[k].1)] else [])
  {
    assert keys[..k + 1][..k] == keys[..k];
  }

  /** A route is made for a key exactly when some journey runs on it. */
  lemma {:induction false} NewRoutesSpec(keys: seq<(string, string)>, vjs: seq<VehicleJourney>)
    ensures forall r :: r in NewRoutes(keys, vjs) <==>
      exists k :: k in keys && Referenced(vjs, RouteId(k.0, k.1)) && r == RouteOf(k.0, k.1)
    decreases |keys|
  {
    if keys != [] {
      var front := keys[..|keys| - 1];
      NewRoutesSpec(front, vjs);
      assert keys == front + [keys[|keys| - 1]];
    }
  }

  /** `make_routes`: the route of each (line, direction) of the journey patterns, in
    * ascending order, that some journey runs on, pushed until a push fails. */
  method MakeRoutes(routes: seq<Route>, jopas: seq<Jopa>, vjs: seq<VehicleJourney>) returns (r: Result<seq<Route>, string>)
    ensures r == TryMerge(routes, RouteKey, NewRoutes(JopaKeys(jopas), vjs))
  {
    var keys := JopaKeys(jopas);
    var routes' := routes;
    for k := 0 to |keys|
      invariant TryMerge(routes, RouteKey, NewRoutes(keys[..k], vjs)) == Ok(routes')
    {
      var line_id := keys[k].0;
      var direction := keys[k].1;
      NewRoutesStep(keys, vjs, k);
      if Referenced(vjs, RouteId(line_id, direction)) {
        var route := RouteOf(line_id, direction);
        TryMergeSnoc(routes, RouteKey, NewRoutes(keys[..k], vjs), route);
        var pushed := Push(routes', RouteKey, route);
        if pushed.Err? {
          NewRoutesSplit(keys, vjs, k + 1);
          TryMergeStopped(routes, RouteKey, NewRoutes(keys[..k + 1], vjs), NewRoutes(keys[k + 1..], vjs));
          return Err(pushed.error);
        }
        assert NewRoutes(keys[..k + 1], vjs) == NewRoutes(keys[..k], vjs) + [route];
        routes' := pushed.value;
      } else {
        assert NewRoutes(keys[..k], vjs) + [] == NewRoutes(keys[..k], vjs);
      }
    }
    assert keys[..|keys|] == keys;
    r := Ok(routes');
  }

  /** A route is made exactly for each (line, direction) of a journey pattern that some journey
    * runs on; whether the pushes succeed is `TryMergeSpec`. */
  lemma MakeRoutesAdded(jopas: seq<Jopa>, vjs: seq<VehicleJourney>, r: Route)
    ensures r in NewRoutes(JopaKeys(jopas), vjs) <==>
      exists j :: j in jopas && Referenced(vjs, RouteId(j.line_planning_number, j.direction))
        && r == RouteOf(j.line_planning_number, j.direction)
  {
    var keys := JopaKeys(jopas);
    NewRoutesSpec(keys, vjs);
    if r in NewRoutes(keys, vjs) {
      var k :| k in keys && Referenced(vjs, RouteId(k.0, k.1)) && r == RouteOf(k.0, k.1);
      var j :| j in jopas && (j.line_planning_number, j.direction) == k;
    }
    if exists j :: j in jopas && Referenced(vjs, RouteId(j.line_planning_number, j.direction))
        && r == RouteOf(j.line_planning_number, j.direction) {
      var j :| j in jopas && Referenced(vjs, RouteId(j.line_planning_number, j.direction))
        && r == RouteOf(j.line_planning_number, j.direction);
      assert (j.line_planning_number, j.direction) in keys;
    }
  }

  /** `route_name_by_direction`: among the routes with that direction, the one with the least
    * id, the earliest of them on a tie. */
  function RouteByDirection(routes: seq<Route>, direction_type: string): Option<Route>
    decreases |routes|
  {
    if routes == [] then None
    else
      var rest := RouteByDirection(routes[1..], direction_type);
      if routes[0].direction_type != Some(direction_type) then rest
      else if rest.Some? && StringBelow(rest.value.id, routes[0].id) then rest
      else Some(routes[0])
  }

  /** Route `k` has the direction, no route with the direction has a smaller id, and every
    * earlier route with the direction has a larger one. */
  predicate ChosenAt(routes: seq<Route>, direction_type: string, k: nat)
  {
    k < |routes| && routes[k].direction_type == Some(direction_type)
    && (forall i :: 0 <= i < |routes| && routes[i].direction_type == Some(direction_type) ==> !StringBelow(routes[i].id, routes[k].id))
    && (forall i :: 0 <= i < k && routes[i].direction_type == Some(direction_type) ==> StringBelow(routes[k].id, routes[i].id))
  }

  /** There is no chosen route exactly when no route has the direction. */
  lemma {:induction false} RouteByDirectionNone(routes: seq<Route>, direction_type: string)
    ensures RouteByDirection(routes, direction_type).None? <==>
      forall i :: 0 <= i < |routes| ==> routes[i].direction_type != Some(direction_type)
    decreases |routes|
  {
    if routes != [] {
      var tail := routes[1..];
      RouteByDirectionNone(tail, direction_type);
      assert forall i :: 0 < i < |routes| ==> routes[i] == tail[i - 1];
    }
  }

  /** The chosen route is the earliest of least id among those with the direction. */
  lemma {:induction false} RouteByDirectionLeast(routes: seq<Route>, direction_type: string)
    requires RouteByDirection(routes, direction_type).Some?
    ensures exists k: nat :: ChosenAt(routes, direction_type, k) && routes[k] == RouteByDirection(routes, direction_type).value
    decreases |routes|
  {
    var tail := routes[1..];
    var rest := RouteByDirection(tail, direction_type);
    var r0 := routes[0];
    var d := Some(direction_type);
    if rest.None? {
      assert r0.direction_type == d;
      RouteByDirectionNone(tail, direction_type);
      StringBelowIrreflexive(r0.id);
      forall i | 0 < i < |routes| ensures routes[i].direction_type != d {
        assert routes[i] == tail[i - 1];
      }
      assert ChosenAt(routes, direction_type, 0);
      return;
    }
    RouteByDirectionLeast(tail, direction_type);
    var k: nat :| ChosenAt(tail, direction_type, k) && tail[k] == rest.value;
    assert routes[k + 1] == tail[k];
    if r0.direction_type != d || StringBelow(rest.value.id, r0.id) {
      if r0.direction_type == d {
        if StringBelow(r0.id, rest.value.id) {
          StringBelowTransitive(r0.id, rest.value.id, r0.id);
          StringBelowIrreflexive(r0.id);
        }
      }
      forall i | 0 < i < |routes| && routes[i].direction_type == d
        ensures !StringBelow(routes[i].id, routes[k + 1].id)
        ensures i < k + 1 ==> StringBelow(routes[k + 1].id, routes[i].id)
      {
        assert routes[i] == tail[i - 1];
      }
      assert ChosenAt(routes, direction_type, k + 1);
    } else {
      StringBelowIrreflexive(r0.id);
      forall i | 0 < i < |routes| && routes[i].direction_type == d
        ensures !StringBelow(routes[i].id, r0.id)
      {
        assert routes[i] == tail[i - 1];
        assert !StringBelow(routes[i].id, rest.value.id);
        if StringBelow(routes[i].id, r0.id) && r0.id != rest.value.id {
          StringBelowTotal(r0.id, rest.value.id);
          StringBelowTransitive(routes[i].id, r0.id, rest.value.id);
        }
      }
      assert ChosenAt(routes, direction_type, 0);
    }
  }

  // ----- Notices (`read_ntcassgn`) -----

  datatype PujoPass = PujoPass(line_planning_number: string, journey_pattern_code: string, journey_number: string,
                               schedule_code: string, stop_order: nat, wheelchair_accessible: Accessibility)

  function PassJourneyId(p: PujoPass): string
  {
    VehicleJourneyId(p.line_planning_number, p.journey_pattern_code, p.journey_number, p.schedule_code)
  }

  /** The passes of each (line, journey number). */
  type PassMap = map<(string, string), seq<PujoPass>>

  datatype NoticeAssignment = NoticeAssignment(line_planning_number: string, journey_number: string, notice_code: string)

  datatype Comment = Comment(id: string, name: string)

  function CommentKey(c: Comment): string { c.id }

  /** A pass of `ps` with stop order 1 belongs to journey `id`. */
  predicate FirstStopOf(ps: seq<PujoPass>, id: string)
  {
    exists j :: 0 <= j < |ps| && ps[j].stop_order == 1 && PassJourneyId(ps[j]) == id
  }

  /** The assignment links its notice to journey `id`: the notice is a known comment and the
    * assignment's trip has a pass with stop order 1 of that journey. */
  predicate Attaches(a: NoticeAssignment, comments: seq<Comment>, passes: PassMap, id: string)
  {
    a.notice_code in IdSet(comments, CommentKey)
    && (a.line_planning_number, a.journey_number) in passes
    && FirstStopOf(passes[(a.line_planning_number, a.journey_number)], id)
  }

  function CommentIdx(comments: seq<Comment>, code: string): Idx
    requires code in IdSet(comments, CommentKey)
  {
    GetIdx(comments, CommentKey, code).value
  }

  /** The comments the rows attach to journey `id`. */
  function NoticeLinks(rows: seq<Option<NoticeAssignment>>, comments: seq<Comment>, passes: PassMap, id: string): set<Idx>
  {
    set k | 0 <= k < |rows| && rows[k].Some? && Attaches(rows[k].value, comments, passes, id)
      :: CommentIdx(comments, rows[k].value.notice_code)
  }

  lemma NoticeLinksSnoc(rows: seq<Option<NoticeAssignment>>, k: nat, comments: seq<Comment>, passes: PassMap, id: string)
    requires k < |rows| && rows[k].Some?
    ensures NoticeLinks(rows[..k + 1], comments, passes, id) == NoticeLinks(rows[..k], comments, passes, id)
      + (if Attaches(rows[k].value, comments, passes, id) then {CommentIdx(comments, rows[k].value.notice_code)} else {})
  {
    var before := rows[..k];
    var after := rows[..k + 1];
    assert forall j :: 0 <= j < k ==> after[j] == before[j];
    assert after[k] == rows[k];
    forall c | c in NoticeLinks(after, comments, passes, id)
      ensures c in NoticeLinks(before, comments, passes, id)
        + (if Attaches(rows[k].value, comments, passes, id) then {CommentIdx(comments, rows[k].value.notice_code)} else {})
    {
      var j :| 0 <= j < |after| && after[j].Some? && Attaches(after[j].value, comments, passes, id)
        && c == CommentIdx(comments, after[j].value.notice_code);
    }
  }

  lemma FirstStopOfSnoc(ps: seq<PujoPass>, m: nat, id: string)
    requires m < |ps|
    ensures FirstStopOf(ps[..m + 1], id) <==> FirstStopOf(ps[..m], id) || (ps[m].stop_order == 1 && PassJourneyId(ps[m]) == id)
  {
    assert forall j :: 0 <= j < m ==> ps[..m + 1][j] == ps[..m][j];
    assert ps[..m + 1][m] == ps[m];
  }

  /** Every pass with stop order 1 belongs to a known journey (the source looks it up with
    * `unwrap`). */
  predicate PassesResolve(vjs: seq<VehicleJourney>, passes: PassMap)
  {
    forall key, j :: key in passes && 0 <= j < |passes[key]| && passes[key][j].stop_order == 1 ==>
      PassJourneyId(passes[key][j]) in IdSet(vjs, VehicleJourneyKey)
  }

  /** After the first `k` rows, each journey has gained the comments those rows attach to it. */
  predicate LinkedUpTo(vjs': seq<VehicleJourney>, vjs: seq<VehicleJourney>, rows: seq<Option<NoticeAssignment>>,
                       comments: seq<Comment>, passes: PassMap, k: nat)
    requires k <= |rows|
  {
    |vjs'| == |vjs| && forall i :: 0 <= i < |vjs| ==>
      vjs'[i] == vjs[i].(comment_links := vjs[i].comment_links + NoticeLinks(rows[..k], comments, passes, vjs[i].id))
  }

  /** While row `k` runs through the passes `ps`, the journeys of the first `m` passes with stop
    * order 1 have gained comment `c` as well. */
  predicate LinkedWithin(vjs': seq<VehicleJourney>, vjs: seq<VehicleJourney>, rows: seq<Option<NoticeAssignment>>,
                         comments: seq<Comment>, passes: PassMap, k: nat, ps: seq<PujoPass>, m: nat, c: Idx)
    requires k <= |rows| && m <= |ps|
  {
    |vjs'| == |vjs| && forall i :: 0 <= i < |vjs| ==>
      vjs'[i] == vjs[i].(comment_links := vjs[i].comment_links + NoticeLinks(rows[..k], comments, passes, vjs[i].id)
        + (if FirstStopOf(ps[..m], vjs[i].id) then {c} else {}))
  }

  /** A row whose notice or trip is unknown attaches nothing. */
  lemma LinkedSkip(vjs': seq<VehicleJourney>, vjs: seq<VehicleJourney>, rows: seq<Option<NoticeAssignment>>,
                   comments: seq<Comment>, passes: PassMap, k: nat)
    requires k < |rows| && rows[k].Some? && LinkedUpTo(vjs', vjs, rows, comments, passes, k)
    requires rows[k].value.notice_code !in IdSet(comments, CommentKey)
      || (rows[k].value.line_planning_number, rows[k].value.journey_number) !in passes
    ensures LinkedUpTo(vjs', vjs, rows, comments, passes, k + 1)
  {
    forall i | 0 <= i < |vjs|
      ensures NoticeLinks(rows[..k + 1], comments, passes, vjs[i].id) == NoticeLinks(rows[..k], comments, passes, vjs[i].id)
    {
      NoticeLinksSnoc(rows, k, comments, passes, vjs[i].id);
    }
  }

  lemma LinkedEnter(vjs': seq<VehicleJourney>, vjs: seq<VehicleJourney>, rows: seq<Option<NoticeAssignment>>,
                    comments: seq<Comment>, passes: PassMap, k: nat, ps: seq<PujoPass>, c: Idx)
    requires k <= |rows| && LinkedUpTo(vjs', vjs, rows, comments, passes, k)
    ensures LinkedWithin(vjs', vjs, rows, comments, passes, k, ps, 0, c)
  {
    forall i | 0 <= i < |vjs| ensures !FirstStopOf(ps[..0], vjs[i].id) {
    }
    forall i | 0 <= i < |vjs|
      ensures vjs'[i] == vjs[i].(comment_links := vjs[i].comment_links + NoticeLinks(rows[..k], comments, passes, vjs[i].id) + {})
    {
    }
  }

  /** The journey ids do not change along the way, so neither do their positions. */
  lemma LinkedWithinIdx(vjs': seq<VehicleJourney>, vjs: seq<VehicleJourney>, rows: seq<Option<NoticeAssignment>>,
                        comments: seq<Comment>, passes: PassMap, k: nat, ps: seq<PujoPass>, m: nat, c: Idx, id: string)
    requires k <= |rows| && m <= |ps| && LinkedWithin(vjs', vjs, rows, comments, passes, k, ps, m, c)
    ensures GetIdx(vjs', VehicleJourneyKey, id) == GetIdx(vjs, VehicleJourneyKey, id)
  {
    assert forall j :: 0 <= j < |vjs| ==> VehicleJourneyKey(vjs'[j]) == VehicleJourneyKey(vjs[j]);
    GetIdxSameKeys(vjs, vjs', VehicleJourneyKey, id);
  }

  /** A pass with another stop order adds nothing. */
  lemma LinkedOtherPass(vjs': seq<VehicleJourney>, vjs: seq<VehicleJourney>, rows: seq<Option<NoticeAssignment>>,
                        comments: seq<Comment>, passes: PassMap, k: nat, ps: seq<PujoPass>, m: nat, c: Idx)
    requires k <= |rows| && m < |ps| && ps[m].stop_order != 1
    requires LinkedWithin(vjs', vjs, rows, comments, passes, k, ps, m, c)
    ensures LinkedWithin(vjs', vjs, rows, comments, passes, k, ps, m + 1, c)
  {
    forall i | 0 <= i < |vjs| ensures FirstStopOf(ps[..m + 1], vjs[i].id) == FirstStopOf(ps[..m], vjs[i].id) {
      FirstStopOfSnoc(ps, m, vjs[i].id);
    }
  }

  /** A pass with stop order 1 adds `c` to its journey, at position `j`, and to no other. */
  lemma LinkedFirstPass(vjs': seq<VehicleJourney>, vjs: seq<VehicleJourney>, rows: seq<Option<NoticeAssignment>>,
                        comments: seq<Comment>, passes: PassMap, k: nat, ps: seq<PujoPass>, m: nat, c: Idx, j: nat)
    requires k <= |rows| && m < |ps| && ps[m].stop_order == 1
    requires UniqueIds(vjs, VehicleJourneyKey) && j < |vjs| && vjs[j].id == PassJourneyId(ps[m])
    requires LinkedWithin(vjs', vjs, rows, comments, passes, k, ps, m, c)
    ensures LinkedWithin(vjs'[j := vjs'[j].(comment_links := vjs'[j].comment_links + {c})], vjs, rows, comments, passes, k, ps, m + 1, c)
  {
    var w := vjs'[j := vjs'[j].(comment_links := vjs'[j].comment_links + {c})];
    forall i | 0 <= i < |vjs|
      ensures w[i] == vjs[i].(comment_links := vjs[i].comment_links + NoticeLinks(rows[..k], comments, passes, vjs[i].id)
        + (if FirstStopOf(ps[..m + 1], vjs[i].id) then {c} else {}))
    {
      FirstStopOfSnoc(ps, m, vjs[i].id);
      if i != j {
        assert VehicleJourneyKey(vjs[i]) != VehicleJourneyKey(vjs[j]);
      }
    }
  }

  /** Once all the passes are done, the row's comment is attached to exactly its journeys. */
  lemma LinkedLeave(vjs': seq<VehicleJourney>, vjs: seq<VehicleJourney>, rows: seq<Option<NoticeAssignment>>,
                    comments: seq<Comment>, passes: PassMap, k: nat)
    requires k < |rows| && rows[k].Some?
    requires rows[k].value.notice_code in IdSet(comments, CommentKey)
    requires (rows[k].value.line_planning_number, rows[k].value.journey_number) in passes
    requires LinkedWithin(vjs', vjs, rows, comments, passes, k,
      passes[(rows[k].value.line_planning_number, rows[k].value.journey_number)],
      |passes[(rows[k].value.line_planning_number, rows[k].value.journey_number)]|,
      CommentIdx(comments, rows[k].value.notice_code))
    ensures LinkedUpTo(vjs', vjs, rows, comments, passes, k + 1)
  {
    var ps := passes[(rows[k].value.line_planning_number, rows[k].value.journey_number)];
    assert ps[..|ps|] == ps;
    forall i | 0 <= i < |vjs|
      ensures NoticeLinks(rows[..k + 1], comments, passes, vjs[i].id) == NoticeLinks(rows[..k], comments, passes, vjs[i].id)
        + (if FirstStopOf(ps[..|ps|], vjs[i].id) then {CommentIdx(comments, rows[k].value.notice_code)} else {})
    {
      NoticeLinksSnoc(rows, k, comments, passes, vjs[i].id);
    }
  }

  /** `read_ntcassgn`: fails iff a row does not deserialize; otherwise each journey gains,
    * as comment links, exactly the comments that some row attaches to it, and nothing else
    * changes. */
  method ReadNtcassgn(vjs: seq<VehicleJourney>, comments: seq<Comment>, passes: PassMap,
                      rows: seq<Option<NoticeAssignment>>, filepath: string)
    returns (vjs': seq<VehicleJourney>, r: Result<(), string>)
    requires UniqueIds(vjs, VehicleJourneyKey) && PassesResolve(vjs, passes)
    ensures r.Err? <==> exists k :: 0 <= k < |rows| && rows[k].None?
    ensures r.Err? ==> r.error == ReadError(filepath)
    ensures r.Ok? ==> |vjs'| == |vjs| && forall i :: 0 <= i < |vjs| ==>
      vjs'[i] == vjs[i].(comment_links := vjs[i].comment_links + NoticeLinks(rows, comments, passes, vjs[i].id))
  {
    vjs' := vjs;
    assert forall i :: 0 <= i < |vjs| ==> NoticeLinks(rows[..0], comments, passes, vjs[i].id) == {};
    for k := 0 to |rows|
      invariant forall j :: 0 <= j < k ==> rows[j].Some?
      invariant LinkedUpTo(vjs', vjs, rows, comments, passes, k)
    {
      if rows[k].None? {
        return vjs', Err(ReadError(filepath));
      }
      var a := rows[k].value;
      var found := GetIdx(comments, CommentKey, a.notice_code);
      if found.Some? && (a.line_planning_number, a.journey_number) in passes {
        var comment_idx := found.value;
        var ps := passes[(a.line_planning_number, a.journey_number)];
        LinkedEnter(vjs', vjs, rows, comments, passes, k, ps, comment_idx);
        for m := 0 to |ps|
          invariant LinkedWithin(vjs', vjs, rows, comments, passes, k, ps, m, comment_idx)
        {
          if ps[m].stop_order == 1 {
            // The journey is there: `get_mut(..).unwrap()`.
            var id := PassJourneyId(ps[m]);
            assert id in IdSet(vjs, VehicleJourneyKey);
            LinkedWithinIdx(vjs', vjs, rows, comments, passes, k, ps, m, comment_idx, id);
            var i := GetIdx(vjs', VehicleJourneyKey, id).value;
            LinkedFirstPass(vjs', vjs, rows, comments, passes, k, ps, m, comment_idx, i);
            vjs' := vjs'[i := vjs'[i].(comment_links := vjs'[i].comment_links + {comment_idx})];
          } else {
            LinkedOtherPass(vjs', vjs, rows, comments, passes, k, ps, m, comment_idx);
          }
        }
        LinkedLeave(vjs', vjs, rows, comments, passes, k);
      } else {
        LinkedSkip(vjs', vjs, rows, comments, passes, k);
      }
    }
    assert rows[..|rows|] == rows;
    r := Ok(());
  }
}
