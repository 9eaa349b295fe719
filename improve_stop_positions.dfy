/** The matching of a transit model's lines and stop points with OpenStreetMap objects
  * (src/improve_stop_positions.rs, `enrich_object_codes` and `clean_up_multiple_mappings`).
  *
  * Names are compared after `sanitize`, which transliterates to ASCII and lower-cases; the
  * transliteration is a foreign library and is a parameter here. The pairing of stop points
  * with OSM stops along matched routes is not part of this model: the two maps it builds are
  * inputs, and what happens to them afterwards is modelled. */
module ImproveStopPositions {
  import opened Wrappers
  import Strings
  import IdCollection

  // ----- compare_almost_equal -----

  /** `sanitize`: the transliteration (ASCII output) lower-cased. */
  function Sanitize(unidecode: string -> string, s: string): string
  {
    Strings.Lower(unidecode(s))
  }

  /** `compare_almost_equal`. */
  predicate AlmostEqual(unidecode: string -> string, a: string, b: string)
  {
    Sanitize(unidecode, a) == Sanitize(unidecode, b)
  }

  /** Whatever the transliteration, the comparison is an equivalence, and it holds between
    * strings that transliterate alike. */
  lemma AlmostEqualSpec(unidecode: string -> string, a: string, b: string, c: string)
    ensures AlmostEqual(unidecode, a, a)
    ensures AlmostEqual(unidecode, a, b) ==> AlmostEqual(unidecode, b, a)
    ensures AlmostEqual(unidecode, a, b) && AlmostEqual(unidecode, b, c) ==> AlmostEqual(unidecode, a, c)
    ensures unidecode(a) == unidecode(b) ==> AlmostEqual(unidecode, a, b)
  {
  }

  /** With the identity as transliteration, "Gare" and "GARE" compare equal and "Gare" and
    * "Gares" do not. */
  lemma AlmostEqualExample()
    ensures AlmostEqual(s => s, "Gare", "GARE")
    ensures !AlmostEqual(s => s, "Gare", "Gares")
  {
    assert Strings.Lower("Gare") == "gare" by {
      assert Strings.LowerChar('G') == 'g';
    }
    assert Strings.Lower("GARE") == "gare" by {
      assert Strings.LowerChar('G') == 'g' && Strings.LowerChar('A') == 'a';
      assert Strings.LowerChar('R') == 'r' && Strings.LowerChar('E') == 'e';
    }
    assert |Strings.Lower("Gares")| == 5;
  }

  // ----- The network precheck -----

  function UnknownNetworkError(id: string): string
  {
    "ntfs network id " + Strings.Quoted(id) + " from mapping does not exist in ntfs"
  }

  /** The check that every network of the mapping exists, run before any OSM work. The
    * mapping is a hash map: which unknown network is reported is not determined. */
  method CheckNetworks(mapping: map<string, string>, networks: set<string>) returns (r: Result<(), string>)
    ensures r.Ok? <==> mapping.Keys <= networks
    ensures r.Err? ==> exists id :: id in mapping && id !in networks && r.error == UnknownNetworkError(id)
  {
    var todo := mapping.Keys;
    while todo != {}
      invariant todo <= mapping.Keys
      invariant mapping.Keys - todo <= networks
      decreases |todo|
    {
      var id :| id in todo;
      if id !in networks {
        return Err(UnknownNetworkError(id));
      }
      todo := todo - {id};
    }
    r := Ok(());
  }

  // ----- Lines -----

  datatype OsmLine = OsmLine(id: string, network: string, operator: string, tags: set<(string, string)>)
  datatype Line = Line(id: string, network_id: string, code: Option<string>, codes: set<(string, string)>)

  /** An OSM line of the given network (compared almost equal) tagged `ref` = `code`. */
  predicate Corresponds(unidecode: string -> string, l: OsmLine, osm_network: string, code: string)
  {
    AlmostEqual(unidecode, l.network, osm_network) && ("ref", code) in l.tags
  }

  /** The OSM lines corresponding to a line, in order. */
  function Corresponding(unidecode: string -> string, osm_lines: seq<OsmLine>, osm_network: string, code: string): (r: seq<OsmLine>)
    ensures forall l :: l in r <==> l in osm_lines && Corresponds(unidecode, l, osm_network, code)
    ensures |r| <= |osm_lines|
  {
    if osm_lines == [] then []
    else
      (if Corresponds(unidecode, osm_lines[0], osm_network, code) then [osm_lines[0]] else [])
      + Corresponding(unidecode, osm_lines[1..], osm_network, code)
  }

  /** Position `i` is the only one whose OSM line corresponds. */
  predicate OnlyAt(unidecode: string -> string, osm_lines: seq<OsmLine>, osm_network: string, code: string, i: int)
  {
    0 <= i < |osm_lines| && Corresponds(unidecode, osm_lines[i], osm_network, code)
    && forall j :: 0 <= j < |osm_lines| && j != i ==> !Corresponds(unidecode, osm_lines[j], osm_network, code)
  }

  lemma {:induction false} CorrespondingOne(unidecode: string -> string, osm_lines: seq<OsmLine>, osm_network: string, code: string)
    requires |Corresponding(unidecode, osm_lines, osm_network, code)| == 1
    ensures exists i :: OnlyAt(unidecode, osm_lines, osm_network, code, i)
    decreases |osm_lines|
  {
    var rest := osm_lines[1..];
    var r := Corresponding(unidecode, rest, osm_network, code);
    assert forall j :: 0 < j < |osm_lines| ==> osm_lines[j] == rest[j - 1];
    if Corresponds(unidecode, osm_lines[0], osm_network, code) {
      assert r == [];
      forall j | 0 < j < |osm_lines| ensures !Corresponds(unidecode, osm_lines[j], osm_network, code) {
        assert rest[j - 1] in rest;
      }
      assert OnlyAt(unidecode, osm_lines, osm_network, code, 0);
    } else {
      CorrespondingOne(unidecode, rest, osm_network, code);
      var i :| OnlyAt(unidecode, rest, osm_network, code, i);
      assert OnlyAt(unidecode, osm_lines, osm_network, code, i + 1);
    }
  }

  lemma {:induction false} CorrespondingNone(unidecode: string -> string, osm_lines: seq<OsmLine>, osm_network: string, code: string)
    requires forall j :: 0 <= j < |osm_lines| ==> !Corresponds(unidecode, osm_lines[j], osm_network, code)
    ensures Corresponding(unidecode, osm_lines, osm_network, code) == []
    decreases |osm_lines|
  {
    if osm_lines != [] {
      CorrespondingNone(unidecode, osm_lines[1..], osm_network, code);
    }
  }

  lemma {:induction false} CorrespondingOnly(unidecode: string -> string, osm_lines: seq<OsmLine>, osm_network: string, code: string, i: int)
    requires OnlyAt(unidecode, osm_lines, osm_network, code, i)
    ensures |Corresponding(unidecode, osm_lines, osm_network, code)| == 1
    decreases |osm_lines|
  {
    var rest := osm_lines[1..];
    var r := Corresponding(unidecode, rest, osm_network, code);
    assert forall j :: 0 < j < |osm_lines| ==> osm_lines[j] == rest[j - 1];
    if i == 0 {
      CorrespondingNone(unidecode, rest, osm_network, code);
    } else {
      assert OnlyAt(unidecode, rest, osm_network, code, i - 1);
      CorrespondingOnly(unidecode, rest, osm_network, code, i - 1);
    }
  }

  /** The filter keeps exactly one OSM line when exactly one position of the OSM lines
    * corresponds. */
  lemma CorrespondingUnique(unidecode: string -> string, osm_lines: seq<OsmLine>, osm_network: string, code: string)
    ensures |Corresponding(unidecode, osm_lines, osm_network, code)| == 1 <==>
      exists i :: OnlyAt(unidecode, osm_lines, osm_network, code, i)
  {
    if |Corresponding(unidecode, osm_lines, osm_network, code)| == 1 {
      CorrespondingOne(unidecode, osm_lines, osm_network, code);
    }
    if exists i :: OnlyAt(unidecode, osm_lines, osm_network, code, i) {
      var i :| OnlyAt(unidecode, osm_lines, osm_network, code, i);
      CorrespondingOnly(unidecode, osm_lines, osm_network, code, i);
    }
  }

  /** The three codes a line receives from its OSM line. */
  function OsmCodes(l: OsmLine): set<(string, string)>
  {
    {("osm_line_id", l.id), ("osm_network", l.network), ("osm_company", l.operator)}
  }

  /** One line of `enrich_object_codes`' loop: a line whose network is mapped and which has a
    * code gets the codes of its OSM line when exactly one corresponds. */
  function EnrichedLine(unidecode: string -> string, mapping: map<string, string>, osm_lines: seq<OsmLine>, line: Line): Line
  {
    if line.network_id !in mapping || line.code.None? then line
    else
      var found := Corresponding(unidecode, osm_lines, mapping[line.network_id], line.code.value);
      if |found| == 1 then line.(codes := line.codes + OsmCodes(found[0])) else line
  }

  /** The line has a mapped network and a code, and exactly one OSM line corresponds. */
  predicate SingleMatch(unidecode: string -> string, mapping: map<string, string>, osm_lines: seq<OsmLine>, line: Line)
  {
    line.code.Some? && line.network_id in mapping
    && |Corresponding(unidecode, osm_lines, mapping[line.network_id], line.code.value)| == 1
  }

  /** A line changes only in its codes, and gains the three OSM codes exactly when its network
    * is mapped, it has a code, and a single OSM line of that network has that code as `ref`;
    * the codes are those of that OSM line. */
  lemma EnrichedLineSpec(unidecode: string -> string, mapping: map<string, string>, osm_lines: seq<OsmLine>, line: Line)
    ensures EnrichedLine(unidecode, mapping, osm_lines, line).(codes := line.codes) == line
    ensures SingleMatch(unidecode, mapping, osm_lines, line) ==>
      exists l :: l in osm_lines && Corresponds(unidecode, l, mapping[line.network_id], line.code.value)
        && EnrichedLine(unidecode, mapping, osm_lines, line).codes == line.codes + OsmCodes(l)
    ensures !SingleMatch(unidecode, mapping, osm_lines, line) ==> EnrichedLine(unidecode, mapping, osm_lines, line) == line
  {
    if SingleMatch(unidecode, mapping, osm_lines, line) {
      var found := Corresponding(unidecode, osm_lines, mapping[line.network_id], line.code.value);
      assert found[0] in found;
    }
  }

  /** Two OSM lines of the network with the line's code leave the line as it was. */
  lemma AmbiguousLineUnchanged(unidecode: string -> string, mapping: map<string, string>, osm_lines: seq<OsmLine>,
                               line: Line, i: nat, j: nat)
    requires line.network_id in mapping && line.code.Some?
    requires i < j < |osm_lines|
    requires Corresponds(unidecode, osm_lines[i], mapping[line.network_id], line.code.value)
    requires Corresponds(unidecode, osm_lines[j], mapping[line.network_id], line.code.value)
    ensures EnrichedLine(unidecode, mapping, osm_lines, line) == line
  {
    CorrespondingUnique(unidecode, osm_lines, mapping[line.network_id], line.code.value);
  }

  /** The loop over the lines. */
  method EnrichLines(unidecode: string -> string, mapping: map<string, string>, osm_lines: seq<OsmLine>, lines: seq<Line>)
    returns (r: seq<Line>)
    ensures |r| == |lines|
    ensures forall i :: 0 <= i < |lines| ==> r[i] == EnrichedLine(unidecode, mapping, osm_lines, lines[i])
  {
    r := lines;
    for k := 0 to |lines|
      invariant |r| == |lines|
      invariant forall i :: 0 <= i < k ==> r[i] == EnrichedLine(unidecode, mapping, osm_lines, lines[i])
      invariant forall i :: k <= i < |lines| ==> r[i] == lines[i]
    {
      var line := lines[k];
      if line.network_id !in mapping || line.code.None? {
        continue;
      }
      var found := Corresponding(unidecode, osm_lines, mapping[line.network_id], line.code.value);
      if |found| == 1 {
        r := r[k := line.(codes := line.codes + OsmCodes(found[0]))];
      }
    }
  }

  // ----- clean_up_multiple_mappings -----

  /** A map from stop ids to the stop ids they were paired with. */
  type PointMap = map<string, set<string>>

  /** An entry survives when it pairs with one stop, or with two when forced. */
  predicate KeepEntry(points: set<string>, force_double: bool)
  {
    |points| == 1 || (force_double && |points| == 2)
  }

  /** A key of the reverse map named by a removed entry of `m` among the keys `done`. */
  predicate RemovedBy(m: PointMap, done: set<string>, force_double: bool, rev_key: string)
  {
    exists k :: k in done && k in m && !KeepEntry(m[k], force_double) && rev_key in m[k]
  }

  /** The entries of `m` among the keys `done` that survive. */
  function KeptAmong(m: PointMap, done: set<string>, force_double: bool): PointMap
  {
    map k | k in done && k in m && KeepEntry(m[k], force_double) :: m[k]
  }

  /** The reverse map without the keys named by removed entries of `m` among the keys `done`. */
  function PrunedAmong(reverse: PointMap, m: PointMap, done: set<string>, force_double: bool): PointMap
  {
    map r | r in reverse && !RemovedBy(m, done, force_double, r) :: reverse[r]
  }

  /** The entries of `m` that survive. */
  function Kept(m: PointMap, force_double: bool): PointMap
  {
    KeptAmong(m, m.Keys, force_double)
  }

  /** The reverse map without the keys named by removed entries of `m`. */
  function Pruned(reverse: PointMap, m: PointMap, force_double: bool): PointMap
  {
    PrunedAmong(reverse, m, m.Keys, force_double)
  }

  lemma KeptAmongStep(m: PointMap, done: set<string>, key: string, force_double: bool)
    requires key in m
    ensures KeptAmong(m, done + {key}, force_double)
      == if KeepEntry(m[key], force_double) then KeptAmong(m, done, force_double)[key := m[key]]
         else KeptAmong(m, done - {key}, force_double)
  {
  }

  lemma PrunedAmongStep(reverse: PointMap, m: PointMap, done: set<string>, key: string, force_double: bool)
    requires key in m
    ensures !KeepEntry(m[key], force_double) ==>
      PrunedAmong(reverse, m, done + {key}, force_double)
        == map r | r in PrunedAmong(reverse, m, done, force_double) && r !in m[key] :: PrunedAmong(reverse, m, done, force_double)[r]
    ensures KeepEntry(m[key], force_double) ==>
      PrunedAmong(reverse, m, done + {key}, force_double) == PrunedAmong(reverse, m, done, force_double)
  {
    var before := PrunedAmong(reverse, m, done, force_double);
    var after := PrunedAmong(reverse, m, done + {key}, force_double);
    if KeepEntry(m[key], force_double) {
      forall r ensures RemovedBy(m, done + {key}, force_double, r) <==> RemovedBy(m, done, force_double, r) {
        if RemovedBy(m, done + {key}, force_double, r) {
          var k :| k in done + {key} && k in m && !KeepEntry(m[k], force_double) && r in m[k];
          assert k in done;
        }
      }
    } else {
      forall r ensures RemovedBy(m, done + {key}, force_double, r) <==> RemovedBy(m, done, force_double, r) || r in m[key] {
        if RemovedBy(m, done + {key}, force_double, r) && r !in m[key] {
          var k :| k in done + {key} && k in m && !KeepEntry(m[k], force_double) && r in m[k];
          assert k in done;
        }
      }
    }
  }

  /** One entry visited by the `retain` of `clean_up_multiple_mappings`. */
  method CleanUpEntry(m: PointMap, reverse: PointMap, done: set<string>, key: string, force_double: bool,
                      kept: PointMap, pruned: PointMap)
    returns (kept': PointMap, pruned': PointMap)
    requires key in m && key !in done
    requires kept == KeptAmong(m, done, force_double) && pruned == PrunedAmong(reverse, m, done, force_double)
    ensures kept' == KeptAmong(m, done + {key}, force_double)
    ensures pruned' == PrunedAmong(reverse, m, done + {key}, force_double)
  {
    KeptAmongStep(m, done, key, force_double);
    PrunedAmongStep(reverse, m, done, key, force_double);
    var points := m[key];
    if KeepEntry(points, force_double) {
      kept', pruned' := kept[key := points], pruned;
    } else {
      assert done - {key} == done;
      kept', pruned' := kept, map r | r in pruned && r !in points :: pruned[r];
    }
  }

  /** `clean_up_multiple_mappings`: `retain` over `map`, whose closure also removes from the
    * reverse map every key named by an entry it drops. */
  method CleanUpMultipleMappings(m: PointMap, reverse: PointMap, force_double: bool)
    returns (m': PointMap, reverse': PointMap)
    ensures m' == Kept(m, force_double)
    ensures reverse' == Pruned(reverse, m, force_double)
  {
    m' := map[];
    reverse' := reverse;
    var todo := m.Keys;
    while todo != {}
      invariant todo <= m.Keys
      invariant m' == KeptAmong(m, m.Keys - todo, force_double)
      invariant reverse' == PrunedAmong(reverse, m, m.Keys - todo, force_double)
      decreases |todo|
    {
      var key :| key in todo;
      var done := m.Keys - todo;
      assert m.Keys - (todo - {key}) == done + {key};
      m', reverse' := CleanUpEntry(m, reverse, done, key, force_double, m', reverse');
      todo := todo - {key};
    }
    assert m.Keys - todo == m.Keys;
  }

  /** After one cleanup an entry of the map stays exactly when it pairs with one stop (or two
    * when forced), and then keeps its original value; and every stop
    * named by a dropped entry is no longer a key of the reverse map, whose other entries stay
    * as they were. */
  lemma CleanUpSpec(m: PointMap, reverse: PointMap, force_double: bool)
    ensures forall k :: k in Kept(m, force_double) ==>
      k in m && Kept(m, force_double)[k] == m[k] && KeepEntry(m[k], force_double)
    ensures forall k :: k in m && KeepEntry(m[k], force_double) ==> k in Kept(m, force_double)
    ensures forall k, p :: k in m && !KeepEntry(m[k], force_double) && p in m[k] ==> p !in Pruned(reverse, m, force_double)
    ensures forall r :: r in reverse && (forall k :: k in m && r in m[k] ==> KeepEntry(m[k], force_double)) ==>
      r in Pruned(reverse, m, force_double) && Pruned(reverse, m, force_double)[r] == reverse[r]
  {
  }

  /** The two cleanups of `enrich_object_codes`: from the stop points' side, then from the OSM
    * side. */
  function CleanedBoth(ntfs_to_osm: PointMap, osm_to_ntfs: PointMap, force_double: bool): (PointMap, PointMap)
  {
    var ntfs1 := Kept(ntfs_to_osm, force_double);
    var osm1 := Pruned(osm_to_ntfs, ntfs_to_osm, force_double);
    (Pruned(ntfs1, osm1, force_double), Kept(osm1, force_double))
  }

  /** After both cleanups, every entry of either map is one of its original entries and pairs
    * with one stop, or two when forced. */
  lemma CleanedBothSpec(ntfs_to_osm: PointMap, osm_to_ntfs: PointMap, force_double: bool)
    ensures forall k :: k in CleanedBoth(ntfs_to_osm, osm_to_ntfs, force_double).0 ==>
      k in ntfs_to_osm && CleanedBoth(ntfs_to_osm, osm_to_ntfs, force_double).0[k] == ntfs_to_osm[k]
      && KeepEntry(ntfs_to_osm[k], force_double)
    ensures forall k :: k in CleanedBoth(ntfs_to_osm, osm_to_ntfs, force_double).1 ==>
      k in osm_to_ntfs && CleanedBoth(ntfs_to_osm, osm_to_ntfs, force_double).1[k] == osm_to_ntfs[k]
      && KeepEntry(osm_to_ntfs[k], force_double)
  {
    CleanUpSpec(ntfs_to_osm, osm_to_ntfs, force_double);
    var ntfs1 := Kept(ntfs_to_osm, force_double);
    var osm1 := Pruned(osm_to_ntfs, ntfs_to_osm, force_double);
    CleanUpSpec(osm1, ntfs1, force_double);
  }

  /** A stop point paired with two OSM stops loses its pairing unless forced. */
  lemma DoublePairingDropped(osm_to_ntfs: PointMap, sp: string, a: string, b: string)
    requires a != b
    ensures sp !in CleanedBoth(map[sp := {a, b}], osm_to_ntfs, false).0
    ensures sp in Kept(map[sp := {a, b}], true)
  {
    assert |{a, b}| == 2;
  }

  // ----- Stop point codes and the whole function -----

  datatype StopPoint = StopPoint(id: string, codes: set<(string, string)>)

  function StopKey(sp: StopPoint): string { sp.id }

  /** The codes naming a stop point's OSM stops. */
  function OsmStopCodes(points: set<string>): set<(string, string)>
  {
    set p | p in points :: ("osm_stop_points_id", p)
  }

  /** A stop point with the codes of its entry in the cleaned map, for the keys in `done`. */
  function WithOsmStops(sp: StopPoint, pairs: PointMap, done: set<string>): StopPoint
  {
    if sp.id in done && sp.id in pairs then sp.(codes := sp.codes + OsmStopCodes(pairs[sp.id])) else sp
  }

  /** The last loop of `enrich_object_codes`: every OSM stop paired with a stop point becomes
    * one of its codes. The keys of the map are ids of the stop points it was built from. */
  method AddOsmStopCodes(stop_points: seq<StopPoint>, pairs: PointMap) returns (r: seq<StopPoint>)
    requires IdCollection.UniqueIds(stop_points, StopKey)
    requires pairs.Keys <= IdCollection.IdSet(stop_points, StopKey)
    ensures |r| == |stop_points|
    ensures forall i :: 0 <= i < |r| ==> r[i] == WithOsmStops(stop_points[i], pairs, pairs.Keys)
  {
    r := stop_points;
    var todo := pairs.Keys;
    while todo != {}
      invariant todo <= pairs.Keys
      invariant |r| == |stop_points|
      invariant forall i :: 0 <= i < |r| ==> r[i] == WithOsmStops(stop_points[i], pairs, pairs.Keys - todo)
      decreases |todo|
    {
      var id :| id in todo;
      var idx := IdCollection.GetIdx(stop_points, StopKey, id);
      if idx.None? {
        assert false;
      } else {
        var i := idx.value;
        forall j | 0 <= j < |stop_points| && j != i ensures stop_points[j].id != id {
          if j < i {
            assert StopKey(stop_points[j]) != StopKey(stop_points[i]);
          } else {
            assert StopKey(stop_points[i]) != StopKey(stop_points[j]);
          }
        }
        r := r[i := r[i].(codes := r[i].codes + OsmStopCodes(pairs[id]))];
      }
      todo := todo - {id};
    }
  }

  /** The OSM objects `enrich_object_codes` needs: the lines and the route ids, each absent
    * when the extract has none. */
  datatype OsmObjects = OsmObjects(lines: Option<seq<OsmLine>>, routes: Option<seq<string>>)

  datatype Enriched = Enriched(lines: seq<Line>, stop_points: seq<StopPoint>)

  function NoLinesError(path: string): string { "no lines found in osm for file " + path }
  function NoRoutesError(path: string): string { "no routes found in osm for file " + path }

  /** `enrich_object_codes` around the stop pairing this model leaves out: the network
    * precheck, the OSM lines and routes, the line codes, both cleanups and the stop codes. */
  method EnrichObjectCodes(unidecode: string -> string, path: string, networks: set<string>, mapping: map<string, string>,
                           osm: OsmObjects, lines: seq<Line>, stop_points: seq<StopPoint>,
                           ntfs_to_osm: PointMap, osm_to_ntfs: PointMap, force_double: bool)
    returns (r: Result<Enriched, string>)
    requires IdCollection.UniqueIds(stop_points, StopKey)
    requires ntfs_to_osm.Keys <= IdCollection.IdSet(stop_points, StopKey)
    ensures !(mapping.Keys <= networks) ==>
      r.Err? && exists id :: id in mapping && id !in networks && r.error == UnknownNetworkError(id)
    ensures mapping.Keys <= networks && osm.lines.None? ==> r == Err(NoLinesError(path))
    ensures mapping.Keys <= networks && osm.lines.Some? && osm.routes.None? ==> r == Err(NoRoutesError(path))
    ensures mapping.Keys <= networks && osm.lines.Some? && osm.routes.Some? ==>
      r.Ok? && |r.value.lines| == |lines| && |r.value.stop_points| == |stop_points|
      && (forall i :: 0 <= i < |lines| ==> r.value.lines[i] == EnrichedLine(unidecode, mapping, osm.lines.value, lines[i]))
      && forall i :: 0 <= i < |stop_points| ==>
           r.value.stop_points[i] == WithOsmStops(stop_points[i], CleanedBoth(ntfs_to_osm, osm_to_ntfs, force_double).0,
                                                  CleanedBoth(ntfs_to_osm, osm_to_ntfs, force_double).0.Keys)
  {
    var checked := CheckNetworks(mapping, networks);
    if checked.Err? {
      return Err(checked.error);
    }
    if osm.lines.None? {
      return Err(NoLinesError(path));
    }
    if osm.routes.None? {
      return Err(NoRoutesError(path));
    }
    var new_lines := EnrichLines(unidecode, mapping, osm.lines.value, lines);
    var ntfs1, osm1 := CleanUpMultipleMappings(ntfs_to_osm, osm_to_ntfs, force_double);
    var osm2, ntfs2 := CleanUpMultipleMappings(osm1, ntfs1, force_double);
    CleanedBothSpec(ntfs_to_osm, osm_to_ntfs, force_double);
    var new_stop_points := AddOsmStopCodes(stop_points, ntfs2);
    r := Ok(Enriched(new_lines, new_stop_points));
  }
}
