/** Complementary codes of apply-rules (apply-rules/src/apply_rules/complementary_code.rs).
  * Rule files list codes to add to lines, routes, stop points and stop areas. The rows of
  * all files are gathered into one ordered set, so duplicates collapse and the rules are
  * applied in ascending order; each rule adds `(object_system, object_code)` to the codes of
  * the object it names, or reports that the object does not exist. */
module ComplementaryCode {
  import opened Wrappers
  import opened IdCollection
  import Report
  import opened RuleReport
  import opened Ordering

  type KeysValues = set<(string, string)>

  datatype ObjectType = Line | Route | StopPoint | StopArea

  function TypeName(t: ObjectType): string
  {
    match t
    case Line => "line"
    case Route => "route"
    case StopPoint => "stop_point"
    case StopArea => "stop_area"
  }

  /** The position of a variant in the declaration, which orders the variants. */
  function TypeRank(t: ObjectType): nat
  {
    match t
    case Line => 0
    case Route => 1
    case StopPoint => 2
    case StopArea => 3
  }

  datatype ComplementaryCode = ComplementaryCode(object_type: ObjectType, object_id: string,
                                                 object_system: string, object_code: string)

  /** The derived order of `ComplementaryCode`: field after field, in declaration order. */
  predicate CodeBelow(a: ComplementaryCode, b: ComplementaryCode)
  {
    TypeRank(a.object_type) < TypeRank(b.object_type)
    || (a.object_type == b.object_type
        && (StringBelow(a.object_id, b.object_id)
            || (a.object_id == b.object_id
                && (StringBelow(a.object_system, b.object_system)
                    || (a.object_system == b.object_system && StringBelow(a.object_code, b.object_code))))))
  }

  lemma CodeOrder()
    ensures StrictTotal(CodeBelow)
  {
    StringOrder();
  }

  /** The rules of a set in ascending order: the order in which the `BTreeSet` yields them. */
  function Sorted(s: set<ComplementaryCode>): (r: seq<ComplementaryCode>)
    ensures |r| == |s| && forall x :: x in r <==> x in s
    ensures forall i, j :: 0 <= i < j < |r| ==> CodeBelow(r[i], r[j])
  {
    CodeOrder();
    AscendingSorted(s, CodeBelow);
    Ascending(s, CodeBelow)
  }

  /** A row of a rule file: a rule, or the error of a row that does not parse. */
  datatype Parsed = Rule(code: ComplementaryCode) | Unreadable(error: string)

  datatype RuleFile = RuleFile(name: string, rows: seq<Parsed>)

  /** The rows of one file, each with the name of the file. */
  function Tagged(f: RuleFile): (r: seq<(string, Parsed)>)
    ensures |r| == |f.rows| && forall k :: 0 <= k < |r| ==> r[k] == (f.name, f.rows[k])
  {
    seq(|f.rows|, k requires 0 <= k < |f.rows| => (f.name, f.rows[k]))
  }

  /** The rows of the files, in file order. */
  function Rows(files: seq<RuleFile>): seq<(string, Parsed)>
    decreases |files|
  {
    if files == [] then []
    else Rows(files[..|files| - 1]) + Tagged(files[|files| - 1])
  }

  /** One row read: a rule goes into the ordered set, an unreadable row is reported. */
  function ReadRow(p: (set<ComplementaryCode>, seq<Row>), row: (string, Parsed)): (set<ComplementaryCode>, seq<Row>)
  {
    match row.1
    case Rule(code) => (p.0 + {code}, p.1)
    case Unreadable(e) => (p.0, p.1 + [InvalidRow(row.0, e)])
  }

  /** The reading loop over rows. */
  function Read(rows: seq<(string, Parsed)>): (set<ComplementaryCode>, seq<Row>)
    decreases |rows|
  {
    if rows == [] then ({}, [])
    else ReadRow(Read(rows[..|rows| - 1]), rows[|rows| - 1])
  }

  lemma ReadSnoc(rows: seq<(string, Parsed)>, row: (string, Parsed))
    ensures Read(rows + [row]) == ReadRow(Read(rows), row)
  {
    assert (rows + [row])[..|rows|] == rows;
  }

  /** The rules read are exactly the rows that parse. */
  lemma {:induction false} ReadRules(rows: seq<(string, Parsed)>)
    ensures forall x :: x in Read(rows).0 <==> exists k :: 0 <= k < |rows| && rows[k].1 == Rule(x)
    decreases |rows|
  {
    if rows != [] {
      var front := rows[..|rows| - 1];
      ReadRules(front);
      assert forall k :: 0 <= k < |front| ==> front[k] == rows[k];
    }
  }

  /** The warnings for the rows that do not parse, taken from the front: one per such row, in
    * row order, each naming the row's file and quoting its error. */
  function Unparsed(rows: seq<(string, Parsed)>): seq<Row>
    decreases |rows|
  {
    if rows == [] then []
    else
      (if rows[0].1.Unreadable? then [InvalidRow(rows[0].0, rows[0].1.error)] else [])
      + Unparsed(rows[1..])
  }

  lemma {:induction false} UnparsedSnoc(rows: seq<(string, Parsed)>, row: (string, Parsed))
    ensures Unparsed(rows + [row])
      == Unparsed(rows) + (if row.1.Unreadable? then [InvalidRow(row.0, row.1.error)] else [])
    decreases |rows|
  {
    if rows == [] {
      assert [row][1..] == [];
    } else {
      assert (rows + [row])[0] == rows[0];
      assert (rows + [row])[1..] == rows[1..] + [row];
      UnparsedSnoc(rows[1..], row);
    }
  }

  /** Every other row is reported as an `InvalidFile` warning that names its file and quotes its
    * error: exactly one warning per such row, in row order. */
  lemma {:induction false} ReadWarnings(rows: seq<(string, Parsed)>)
    ensures Read(rows).1 == Unparsed(rows)
    ensures forall t :: 0 <= t < |Read(rows).1| ==> Read(rows).1[t].category == InvalidFile
    ensures |Read(rows).1| == |rows| - |set k | 0 <= k < |rows| && rows[k].1.Rule?|
    ensures forall k :: 0 <= k < |rows| && rows[k].1.Unreadable? ==>
      InvalidRow(rows[k].0, rows[k].1.error) in Read(rows).1
    decreases |rows|
  {
    if rows != [] {
      var front := rows[..|rows| - 1];
      var n := |rows| - 1;
      ReadWarnings(front);
      assert rows == front + [rows[n]];
      UnparsedSnoc(front, rows[n]);
      assert forall k :: 0 <= k < n ==> front[k] == rows[k];
      var rulesFront := set k | 0 <= k < n && front[k].1.Rule?;
      var rules := set k | 0 <= k < |rows| && rows[k].1.Rule?;
      if rows[n].1.Rule? {
        assert rules == rulesFront + {n};
      } else {
        assert rules == rulesFront;
      }
    }
  }

  /** The rows of one file read in turn, after the rows `before`. */
  method ReadRuleFile(f: RuleFile, ghost before: seq<(string, Parsed)>, rules: set<ComplementaryCode>,
                      ghost ws: seq<Row>, ghost w0: seq<Row>, report: Report.Report<ReportCategory>)
    returns (rules': set<ComplementaryCode>, ghost ws': seq<Row>)
    requires (rules, ws) == Read(before)
    requires report.warnings == Report.RecordAll(w0, ws)
    modifies report
    ensures (rules', ws') == Read(before + Tagged(f))
    ensures report.warnings == Report.RecordAll(w0, ws') && report.errors == old(report.errors)
  {
    var tagged := Tagged(f);
    rules', ws' := rules, ws;
    assert before + tagged[..0] == before;
    for j := 0 to |f.rows|
      invariant (rules', ws') == Read(before + tagged[..j])
      invariant report.warnings == Report.RecordAll(w0, ws')
      invariant report.errors == old(report.errors)
    {
      assert before + tagged[..j + 1] == (before + tagged[..j]) + [(f.name, f.rows[j])];
      ReadSnoc(before + tagged[..j], (f.name, f.rows[j]));
      match f.rows[j] {
        case Rule(code) =>
          rules' := rules' + {code};
        case Unreadable(e) =>
          var row := InvalidRow(f.name, e);
          report.AddWarning(row.message, row.category);
          Report.RecordAllConcat(w0, ws', [row]);
          ws' := ws' + [row];
      }
    }
    assert tagged[..|f.rows|] == tagged;
  }

  /** `read_complementary_code_rules_files`: every row of every file in turn, then the set's
    * rules in ascending order. */
  method ReadComplementaryCodeRulesFiles(files: seq<RuleFile>, report: Report.Report<ReportCategory>)
    returns (codes: seq<ComplementaryCode>)
    modifies report
    ensures var r := Read(Rows(files));
      codes == Sorted(r.0)
      && report.warnings == Report.RecordAll(old(report.warnings), r.1)
      && report.errors == old(report.errors)
  {
    var rules: set<ComplementaryCode> := {};
    ghost var ws: seq<Row> := [];
    for i := 0 to |files|
      invariant (rules, ws) == Read(Rows(files[..i]))
      invariant report.warnings == Report.RecordAll(old(report.warnings), ws)
      invariant report.errors == old(report.errors)
    {
      assert files[..i + 1][..i] == files[..i];
      rules, ws := ReadRuleFile(files[i], Rows(files[..i]), rules, ws, old(report.warnings), report);
    }
    assert files[..|files|] == files;
    codes := Sorted(rules);
  }

  // ----- inserting a code -----

  /** The one thing the rules need of the four object kinds: an id and a code set. */
  datatype Object = Object(id: string, codes: KeysValues)

  function ObjectKey(o: Object): string { o.id }

  datatype Collections = Collections(lines: seq<Object>, routes: seq<Object>, stop_points: seq<Object>,
                                     stop_areas: seq<Object>)

  function NotFoundMessage(code: ComplementaryCode): string
  {
    "Error inserting code: object_codes.txt: object=" + TypeName(code.object_type) + ",  object_id="
      + code.object_id + " not found"
  }

  /** `insert_code`: the collection afterwards and the warnings filed. */
  function Inserted(objects: seq<Object>, code: ComplementaryCode): (seq<Object>, seq<Row>)
  {
    match GetIdx(objects, ObjectKey, code.object_id)
    case None => (objects, [Report.ReportRow(ObjectNotFound, NotFoundMessage(code))])
    case Some(i) =>
      (objects[i := objects[i].(codes := objects[i].codes + {(code.object_system, code.object_code)})], [])
  }

  /** An unknown id leaves the collection as it was with one `ObjectNotFound` warning; a known
    * one gains the code on that object alone, with no warning. */
  lemma InsertedSpec(objects: seq<Object>, code: ComplementaryCode)
    requires UniqueIds(objects, ObjectKey)
    ensures var r := Inserted(objects, code);
      (code.object_id !in IdSet(objects, ObjectKey) ==>
         r.0 == objects && r.1 == [Report.ReportRow(ObjectNotFound, NotFoundMessage(code))])
      && (code.object_id in IdSet(objects, ObjectKey) ==>
            r.1 == [] && |r.0| == |objects|
            && forall i :: 0 <= i < |objects| ==>
                 r.0[i].id == objects[i].id
                 && r.0[i].codes == if objects[i].id == code.object_id
                                    then objects[i].codes + {(code.object_system, code.object_code)}
                                    else objects[i].codes)
  {
    if code.object_id in IdSet(objects, ObjectKey) {
      var k := GetIdx(objects, ObjectKey, code.object_id).value;
      assert forall i :: 0 <= i < |objects| && objects[i].id == code.object_id ==> i == k;
    }
  }

  /** Inserting the same code twice is inserting it once. */
  lemma InsertedIdempotent(objects: seq<Object>, code: ComplementaryCode)
    requires UniqueIds(objects, ObjectKey)
    ensures Inserted(Inserted(objects, code).0, code).0 == Inserted(objects, code).0
  {
    var r := Inserted(objects, code).0;
    if code.object_id in IdSet(objects, ObjectKey) {
      var k := GetIdx(objects, ObjectKey, code.object_id).value;
      assert ObjectKey(r[k]) == code.object_id;
      assert UniqueIds(r, ObjectKey) by {
        assert forall i :: 0 <= i < |r| ==> r[i].id == objects[i].id;
      }
      GetIdxOfMember(r, ObjectKey, k);
    }
  }

  /** `insert_code` on one collection. */
  method InsertCode(objects: seq<Object>, code: ComplementaryCode, report: Report.Report<ReportCategory>)
    returns (r: seq<Object>)
    modifies report
    ensures var ins := Inserted(objects, code);
      r == ins.0
      && report.warnings == Report.RecordAll(old(report.warnings), ins.1)
      && report.errors == old(report.errors)
  {
    var idx := GetIdx(objects, ObjectKey, code.object_id);
    if idx.None? {
      report.AddWarning(NotFoundMessage(code), ObjectNotFound);
      return objects;
    }
    var i := idx.value;
    r := objects[i := objects[i].(codes := objects[i].codes + {(code.object_system, code.object_code)})];
  }

  /** The collection a rule's object type designates, and the collections with it replaced. */
  function Designated(c: Collections, t: ObjectType): seq<Object>
  {
    match t
    case Line => c.lines
    case Route => c.routes
    case StopPoint => c.stop_points
    case StopArea => c.stop_areas
  }

  function WithDesignated(c: Collections, t: ObjectType, objects: seq<Object>): (d: Collections)
    ensures Designated(d, t) == objects
    ensures forall u :: u != t ==> Designated(d, u) == Designated(c, u)
  {
    match t
    case Line => c.(lines := objects)
    case Route => c.(routes := objects)
    case StopPoint => c.(stop_points := objects)
    case StopArea => c.(stop_areas := objects)
  }

  /** The rules applied in turn. */
  function Applied(c: Collections, codes: seq<ComplementaryCode>): (Collections, seq<Row>)
    decreases |codes|
  {
    if codes == [] then (c, [])
    else
      var p := Applied(c, codes[..|codes| - 1]);
      var code := codes[|codes| - 1];
      var ins := Inserted(Designated(p.0, code.object_type), code);
      (WithDesignated(p.0, code.object_type, ins.0), p.1 + ins.1)
  }

  /** A rule only ever changes the collection its object type designates. */
  lemma AppliedOthersUnchanged(c: Collections, codes: seq<ComplementaryCode>, t: ObjectType)
    requires forall k :: 0 <= k < |codes| ==> codes[k].object_type != t
    ensures Designated(Applied(c, codes).0, t) == Designated(c, t)
    decreases |codes|
  {
    if codes != [] {
      AppliedOthersUnchanged(c, codes[..|codes| - 1], t);
    }
  }

  /** One rule, dispatched on its object type to the collection it designates. */
  method DispatchCode(d: Collections, code: ComplementaryCode, report: Report.Report<ReportCategory>)
    returns (d': Collections)
    modifies report
    ensures var ins := Inserted(Designated(d, code.object_type), code);
      d' == WithDesignated(d, code.object_type, ins.0)
      && report.warnings == Report.RecordAll(old(report.warnings), ins.1)
      && report.errors == old(report.errors)
  {
    match code.object_type {
      case Line =>
        var objects := InsertCode(d.lines, code, report);
        d' := d.(lines := objects);
      case Route =>
        var objects := InsertCode(d.routes, code, report);
        d' := d.(routes := objects);
      case StopPoint =>
        var objects := InsertCode(d.stop_points, code, report);
        d' := d.(stop_points := objects);
      case StopArea =>
        var objects := InsertCode(d.stop_areas, code, report);
        d' := d.(stop_areas := objects);
    }
  }

  /** The rules applied in the order given. */
  method ApplyCodes(codes: seq<ComplementaryCode>, c: Collections, report: Report.Report<ReportCategory>)
    returns (d: Collections)
    modifies report
    ensures var a := Applied(c, codes);
      d == a.0
      && report.warnings == Report.RecordAll(old(report.warnings), a.1)
      && report.errors == old(report.errors)
  {
    d := c;
    ghost var ws: seq<Row> := [];
    for i := 0 to |codes|
      invariant (d, ws) == Applied(c, codes[..i])
      invariant report.warnings == Report.RecordAll(old(report.warnings), ws)
      invariant report.errors == old(report.errors)
    {
      assert codes[..i + 1][..i] == codes[..i];
      ghost var ins := Inserted(Designated(d, codes[i].object_type), codes[i]);
      d := DispatchCode(d, codes[i], report);
      Report.RecordAllConcat(old(report.warnings), ws, ins.1);
      ws := ws + ins.1;
    }
    assert codes[..|codes|] == codes;
  }

  /** Complementary codes' `apply_rules`: the rules of all files, de-duplicated and in
    * ascending order, each inserted into the collection its object type designates. */
  method ApplyRules(files: seq<RuleFile>, c: Collections, report: Report.Report<ReportCategory>)
    returns (d: Collections)
    modifies report
    ensures var r := Read(Rows(files));
      var a := Applied(c, Sorted(r.0));
      d == a.0
      && report.warnings == Report.RecordAll(old(report.warnings), r.1 + a.1)
      && report.errors == old(report.errors)
  {
    var codes := ReadComplementaryCodeRulesFiles(files, report);
    d := ApplyCodes(codes, c, report);
    Report.RecordAllConcat(old(report.warnings), Read(Rows(files)).1, Applied(c, codes).1);
  }
}
