/** The de-duplicating report every tool fills while it works (src/report.rs): two lists of
  * rows, warnings and errors, each row a category and a message. */
module Report {

  datatype ReportRow<C> = ReportRow(category: C, message: string)

  ghost predicate NoDuplicates<C>(rows: seq<ReportRow<C>>)
  {
    forall i, j :: 0 <= i < j < |rows| ==> rows[i] != rows[j]
  }

  /** What recording one row does to a list: the row is appended unless it is already there. */
  function Record<C(==)>(rows: seq<ReportRow<C>>, row: ReportRow<C>): (r: seq<ReportRow<C>>)
  {
    if row in rows then rows else rows + [row]
  }

  /** Recording a sequence of rows, one after the other. */
  function RecordAll<C(==)>(rows: seq<ReportRow<C>>, added: seq<ReportRow<C>>): seq<ReportRow<C>>
    decreases |added|
  {
    if added == [] then rows else RecordAll(Record(rows, added[0]), added[1..])
  }

  /** Recording keeps what was there, in place, gains the row, and never lets a duplicate in. */
  lemma RecordSpec<C>(rows: seq<ReportRow<C>>, row: ReportRow<C>)
    ensures var r := Record(rows, row);
      |rows| <= |r| <= |rows| + 1 && r[..|rows|] == rows && row in r
      && (forall x :: x in r <==> x in rows || x == row)
      && (NoDuplicates(rows) ==> NoDuplicates(r))
  {
  }

  /** Recording the same row a second time changes nothing. */
  lemma RecordIdempotent<C>(rows: seq<ReportRow<C>>, row: ReportRow<C>)
    ensures Record(Record(rows, row), row) == Record(rows, row)
  {
  }

  /** Recording rows that are all already present changes nothing. */
  lemma {:induction false} RecordAllPresent<C>(rows: seq<ReportRow<C>>, added: seq<ReportRow<C>>)
    requires forall x :: x in added ==> x in rows
    ensures RecordAll(rows, added) == rows
    decreases |added|
  {
    if added != [] {
      assert added[0] in added;
      assert forall x :: x in added[1..] ==> x in added;
      RecordAllPresent(rows, added[1..]);
    }
  }

  /** Recording a batch keeps the earlier rows as a prefix, in their first-insertion order. */
  lemma {:induction false} RecordAllPrefix<C>(rows: seq<ReportRow<C>>, added: seq<ReportRow<C>>)
    ensures |rows| <= |RecordAll(rows, added)| && RecordAll(rows, added)[..|rows|] == rows
    decreases |added|
  {
    if added != [] {
      var r1 := Record(rows, added[0]);
      RecordSpec(rows, added[0]);
      RecordAllPrefix(r1, added[1..]);
      var r := RecordAll(rows, added);
      assert r[..|r1|][..|rows|] == r[..|rows|];
    }
  }

  /** After recording a batch the list holds exactly the rows of both. */
  lemma {:induction false} RecordAllMembers<C>(rows: seq<ReportRow<C>>, added: seq<ReportRow<C>>, x: ReportRow<C>)
    ensures x in RecordAll(rows, added) <==> x in rows || x in added
    decreases |added|
  {
    if added != [] {
      RecordSpec(rows, added[0]);
      RecordAllMembers(Record(rows, added[0]), added[1..], x);
      assert added == [added[0]] + added[1..];
    }
  }

  /** Recording never lets a duplicate in. */
  lemma {:induction false} RecordAllNoDuplicates<C>(rows: seq<ReportRow<C>>, added: seq<ReportRow<C>>)
    requires NoDuplicates(rows)
    ensures NoDuplicates(RecordAll(rows, added))
    decreases |added|
  {
    if added != [] {
      RecordSpec(rows, added[0]);
      RecordAllNoDuplicates(Record(rows, added[0]), added[1..]);
    }
  }

  /** Recording nothing, or a single row. */
  lemma RecordAllShort<C>(rows: seq<ReportRow<C>>, row: ReportRow<C>)
    ensures RecordAll(rows, []) == rows
    ensures RecordAll(rows, [row]) == Record(rows, row)
  {
    assert [row][1..] == [];
  }

  /** Recording a batch twice is the same as recording it once. */
  lemma RecordAllTwice<C>(rows: seq<ReportRow<C>>, added: seq<ReportRow<C>>)
    ensures RecordAll(RecordAll(rows, added), added) == RecordAll(rows, added)
  {
    forall x | x in added ensures x in RecordAll(rows, added) {
      RecordAllMembers(rows, added, x);
    }
    RecordAllPresent(RecordAll(rows, added), added);
  }

  /** Recording `a` then `b` is recording `a + b`. */
  lemma {:induction false} RecordAllConcat<C>(rows: seq<ReportRow<C>>, a: seq<ReportRow<C>>, b: seq<ReportRow<C>>)
    ensures RecordAll(RecordAll(rows, a), b) == RecordAll(rows, a + b)
    decreases |a|
  {
    if a != [] {
      assert (a + b)[0] == a[0] && (a + b)[1..] == a[1..] + b;
      RecordAllConcat(Record(rows, a[0]), a[1..], b);
    } else {
      assert a + b == b;
    }
  }

  class Report<C(==)> {
    var errors: seq<ReportRow<C>>
    var warnings: seq<ReportRow<C>>

    /** `Report::default()`: both lists empty. */
    constructor ()
      ensures errors == [] && warnings == []
    {
      errors := [];
      warnings := [];
    }

    /** `add_warning`: records the row among the warnings; the errors are untouched. */
    method AddWarning(message: string, category: C)
      modifies this
      ensures warnings == Record(old(warnings), ReportRow(category, message))
      ensures errors == old(errors)
    {
      var row := ReportRow(category, message);
      if row !in warnings {
        warnings := warnings + [row];
      }
    }

    /** `add_error`: records the row among the errors; the warnings are untouched. */
    method AddError(message: string, category: C)
      modifies this
      ensures errors == Record(old(errors), ReportRow(category, message))
      ensures warnings == old(warnings)
    {
      var row := ReportRow(category, message);
      if row !in errors {
        errors := errors + [row];
      }
    }
  }
}
