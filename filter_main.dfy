/** The command line's part of filter-ntfs (filter-ntfs/src/main.rs): the action argument and
  * the `property:value` strings given for networks and lines, added to a `Filter`. */
module FilterMain {
  import opened Wrappers
  import NtfsFilter

  /** The action as the command line accepts it. */
  datatype Action = Extract | Remove

  /** The conversion into the filter's action: one to one, Extract to Extract and Remove to
    * Remove. */
  function IntoAction(a: Action): (r: NtfsFilter.Action)
    ensures r.Extract? <==> a.Extract?
  {
    match a
    case Extract => NtfsFilter.Extract
    case Remove => NtfsFilter.Remove
  }

  /** The position of the first `:` of `f`, if any. */
  function FindColon(f: string): (r: Option<nat>)
    ensures r.Some? ==> r.value < |f| && f[r.value] == ':' && ':' !in f[..r.value]
    ensures r.None? ==> ':' !in f
  {
    if f == [] then None
    else if f[0] == ':' then Some(0)
    else
      match FindColon(f[1..])
      case None => None
      case Some(i) => assert f[..i + 1] == [f[0]] + f[1..][..i]; Some(i + 1)
  }

  function MalformedMessage(f: string): string
  {
    "expected filter should be \"property:value\", \"" + f + "\" given"
  }

  /** One filter string split at its first `:` into property and value. */
  function Split(f: string): Result<(string, string), string>
  {
    match FindColon(f)
    case None => Err(MalformedMessage(f))
    case Some(pos) => Ok((f[..pos], f[pos + 1..]))
  }

  /** The split is exact and the property holds no `:`, so the value keeps every later `:`;
    * only a string without `:` fails, and its message quotes it. */
  lemma SplitSpec(f: string)
    ensures Split(f).Ok? ==>
      var (p, v) := Split(f).value;
      f == p + ":" + v && ':' !in p
    ensures Split(f).Err? <==> ':' !in f
    ensures Split(f).Err? ==> Split(f).error == MalformedMessage(f)
  {
    if Split(f).Ok? {
      var pos := FindColon(f).value;
      assert f == f[..pos] + [':'] + f[pos + 1..];
    }
  }

  /** A `:` with none before it is the first. */
  lemma {:induction false} FindColonAt(f: string, i: nat)
    requires i < |f| && f[i] == ':' && ':' !in f[..i]
    ensures FindColon(f) == Some(i)
  {
    if i > 0 {
      assert f[0] == f[..i][0];
      assert f[1..][..i - 1] == f[1..i];
      assert forall j :: 0 <= j < i - 1 ==> f[1..i][j] == f[..i][j + 1];
      FindColonAt(f[1..], i - 1);
    }
  }

  /** Joining a property without `:` and a value with one `:` splits back into them. */
  lemma SplitJoin(p: string, v: string)
    requires ':' !in p
    ensures Split(p + ":" + v) == Ok((p, v))
  {
    var f := p + ":" + v;
    assert f[..|p|] == p;
    FindColonAt(f, |p|);
    assert f[..|p|] == p;
    assert f[|p| + 1..] == v;
  }

  /** `add_filters` on the filter's triples: the pairs are added in turn, and the first
    * malformed string stops the loop with its error, keeping the pairs added before it. */
  function AddFilters(filters: NtfsFilter.Filters, t: NtfsFilter.ObjectType, fs: seq<string>)
    : (NtfsFilter.Filters, Result<(), string>)
    decreases |fs|
  {
    if fs == [] then (filters, Ok(()))
    else
      var p := AddFilters(filters, t, fs[..|fs| - 1]);
      if p.1.Err? then p
      else
        match Split(fs[|fs| - 1])
        case Err(e) => (p.0, Err(e))
        case Ok(pv) => (NtfsFilter.Added(p.0, t, pv.0, pv.1), Ok(()))
  }

  /** The filters after adding the given strings, all of which split. */
  function AddedAll(filters: NtfsFilter.Filters, t: NtfsFilter.ObjectType, fs: seq<string>): NtfsFilter.Filters
    requires forall k :: 0 <= k < |fs| ==> Split(fs[k]).Ok?
    decreases |fs|
  {
    if fs == [] then filters
    else
      var pv := Split(fs[|fs| - 1]).value;
      NtfsFilter.Added(AddedAll(filters, t, fs[..|fs| - 1]), t, pv.0, pv.1)
  }

  /** `add_filters` succeeds iff every string holds a `:`. */
  lemma {:induction false} AddFiltersOk(filters: NtfsFilter.Filters, t: NtfsFilter.ObjectType, fs: seq<string>)
    ensures AddFilters(filters, t, fs).1.Ok? <==> forall k :: 0 <= k < |fs| ==> ':' in fs[k]
    decreases |fs|
  {
    if fs != [] {
      var front := fs[..|fs| - 1];
      AddFiltersOk(filters, t, front);
      SplitSpec(fs[|fs| - 1]);
      assert forall k :: 0 <= k < |front| ==> front[k] == fs[k];
    }
  }

  /** Every string splits exactly when it holds a `:`. */
  lemma SplitAll(fs: seq<string>)
    ensures (forall k :: 0 <= k < |fs| ==> ':' in fs[k]) <==> (forall k :: 0 <= k < |fs| ==> Split(fs[k]).Ok?)
  {
    forall k | 0 <= k < |fs| ensures ':' in fs[k] <==> Split(fs[k]).Ok? {
      SplitSpec(fs[k]);
    }
  }

  /** When `add_filters` succeeds, every pair has been added, in order. */
  lemma {:induction false} AddFiltersAdded(filters: NtfsFilter.Filters, t: NtfsFilter.ObjectType, fs: seq<string>)
    requires forall k :: 0 <= k < |fs| ==> Split(fs[k]).Ok?
    ensures AddFilters(filters, t, fs) == (AddedAll(filters, t, fs), Ok(()))
    decreases |fs|
  {
    if fs != [] {
      var front := fs[..|fs| - 1];
      assert forall k :: 0 <= k < |front| ==> front[k] == fs[k];
      AddFiltersAdded(filters, t, front);
    }
  }

  /** When `add_filters` fails, its error quotes the first string without `:`, and exactly
    * the strings before it have been added. */
  lemma AddFiltersFirstError(filters: NtfsFilter.Filters, t: NtfsFilter.ObjectType, fs: seq<string>, n: nat)
    requires n < |fs| && ':' !in fs[n] && forall k :: 0 <= k < n ==> ':' in fs[k]
    ensures AddFilters(filters, t, fs).1 == Err(MalformedMessage(fs[n]))
    ensures forall k :: 0 <= k < n ==> Split(fs[k]).Ok?
    ensures AddFilters(filters, t, fs).0 == AddedAll(filters, t, fs[..n])
  {
    var front := fs[..n];
    assert forall k :: 0 <= k < n ==> front[k] == fs[k];
    SplitAll(front);
    AddFiltersAdded(filters, t, front);
    SplitSpec(fs[n]);
    assert fs[..n + 1][..n] == front;
    AddFiltersRest(filters, t, fs, n + 1);
  }

  /** `add_filters`: each string split at its first `:` and added under `t`. */
  method AddFilterStrings(filter: NtfsFilter.Filter, t: NtfsFilter.ObjectType, fs: seq<string>)
    returns (r: Result<(), string>)
    modifies filter
    ensures (filter.filters, r) == AddFilters(old(filter.filters), t, fs)
    ensures filter.action == old(filter.action)
  {
    for i := 0 to |fs|
      invariant AddFilters(old(filter.filters), t, fs[..i]) == (filter.filters, Ok(()))
      invariant filter.action == old(filter.action)
    {
      assert fs[..i + 1][..i] == fs[..i];
      var f := fs[i];
      var pos := FindColon(f);
      if pos.None? {
        r := Err(MalformedMessage(f));
        AddFiltersRest(old(filter.filters), t, fs, i + 1);
        return;
      }
      filter.Add(t, f[..pos.value], f[pos.value + 1..]);
    }
    assert fs[..|fs|] == fs;
    r := Ok(());
  }

  /** Once the loop has stopped, later strings change nothing. */
  lemma {:induction false} AddFiltersRest(filters: NtfsFilter.Filters, t: NtfsFilter.ObjectType, fs: seq<string>, n: nat)
    requires 0 < n <= |fs| && AddFilters(filters, t, fs[..n]).1.Err?
    ensures AddFilters(filters, t, fs) == AddFilters(filters, t, fs[..n])
    decreases |fs| - n
  {
    if n < |fs| {
      assert fs[..n + 1][..n] == fs[..n];
      AddFiltersRest(filters, t, fs, n + 1);
    } else {
      assert fs[..n] == fs;
    }
  }

  /** The filters `run` builds: the network strings first, then the line strings, the first
    * malformed string ending it. */
  method BuildFilter(action: Action, networks: seq<string>, lines: seq<string>)
    returns (r: Result<NtfsFilter.Filter, string>)
    ensures var (fn, rn) := AddFilters(map[], NtfsFilter.ObjectType.Network, networks);
      if rn.Err? then r == Err(rn.error)
      else
        var (fl, rl) := AddFilters(fn, NtfsFilter.ObjectType.Line, lines);
        if rl.Err? then r == Err(rl.error)
        else r.Ok? && r.value.filters == fl && r.value.action == IntoAction(action)
  {
    var filter := new NtfsFilter.Filter(IntoAction(action));
    var rn := AddFilterStrings(filter, NtfsFilter.ObjectType.Network, networks);
    if rn.Err? {
      return Err(rn.error);
    }
    var rl := AddFilterStrings(filter, NtfsFilter.ObjectType.Line, lines);
    if rl.Err? {
      return Err(rl.error);
    }
    return Ok(filter);
  }
}
