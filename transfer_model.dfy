/** What the two transfer-rule programs (transfers/src/rules.rs and src/transfers/rules.rs)
  * share: stop points, transfers, the working map of transfers keyed by their pair of stops,
  * the removal of the transfers a rule names, and the output sorted by that pair.
  *
  * The sources key the working maps by the pair of stop-point handles (`Idx`) that the two
  * stop ids resolve to. Stop-point ids are unique, so a pair of resolved handles and the pair
  * of ids determine each other; the model keys by the id pair. */
module TransferModel {
  import opened Wrappers
  import opened IdCollection
  import opened Ordering

  /** A stop point with the contributors it is related to (the contributors of the trips that
    * call at it). */
  datatype StopPoint = StopPoint(id: string, stop_area_id: string, contributors: set<string>)

  datatype StopArea = StopArea(id: string)

  function StopPointKey(sp: StopPoint): string { sp.id }
  function StopAreaKey(sa: StopArea): string { sa.id }

  datatype Transfer = Transfer(from_stop_id: string, to_stop_id: string, min_transfer_time: Option<nat>,
                               real_min_transfer_time: Option<nat>, equipment_id: Option<string>)

  /** The `(from, to)` pair of stops a transfer or a rule is about. */
  type Key = (string, string)

  function KeyOf(t: Transfer): Key { (t.from_stop_id, t.to_stop_id) }

  type TransferMap = map<Key, Transfer>

  /** Every transfer of the map sits under its own pair of stops. */
  predicate Keyed(tm: TransferMap)
  {
    forall k :: k in tm ==> KeyOf(tm[k]) == k
  }

  /** Both stops of the transfer are stop points of the dataset: the sources resolve them
    * with `unwrap`. */
  predicate Resolvable(stop_points: seq<StopPoint>, t: Transfer)
  {
    t.from_stop_id in IdSet(stop_points, StopPointKey) && t.to_stop_id in IdSet(stop_points, StopPointKey)
  }

  /** Every transfer names stop points of the dataset: the sources resolve them with
    * `unwrap`, which panics otherwise. */
  predicate AllResolvable(stop_points: seq<StopPoint>, ts: seq<Transfer>)
  {
    forall i :: 0 <= i < |ts| ==> Resolvable(stop_points, ts[i])
  }

  /** The transfers collected into a map: a later transfer for the same pair replaces an
    * earlier one. */
  function Collected(ts: seq<Transfer>): (tm: TransferMap)
    ensures Keyed(tm)
    decreases |ts|
  {
    if ts == [] then map[]
    else
      var t := ts[|ts| - 1];
      Collected(ts[..|ts| - 1])[KeyOf(t) := t]
  }

  /** The pairs of the collected map are those of the transfers. */
  lemma {:induction false} CollectedKeys(ts: seq<Transfer>)
    ensures forall k :: k in Collected(ts) <==> exists i :: 0 <= i < |ts| && KeyOf(ts[i]) == k
    decreases |ts|
  {
    if ts != [] {
      var front := ts[..|ts| - 1];
      CollectedKeys(front);
      assert forall i :: 0 <= i < |front| ==> front[i] == ts[i];
    }
  }

  /** The transfer is the last one with its pair. */
  predicate LastOfKey(ts: seq<Transfer>, i: int)
    requires 0 <= i < |ts|
  {
    forall j :: i < j < |ts| ==> KeyOf(ts[j]) != KeyOf(ts[i])
  }

  /** The collected map holds, for each pair, the last transfer with that pair. */
  lemma {:induction false} CollectedLastWins(ts: seq<Transfer>, i: nat)
    requires i < |ts| && LastOfKey(ts, i)
    ensures KeyOf(ts[i]) in Collected(ts) && Collected(ts)[KeyOf(ts[i])] == ts[i]
    decreases |ts|
  {
    if i < |ts| - 1 {
      var front := ts[..|ts| - 1];
      assert LastOfKey(front, i) by {
        assert forall j :: i < j < |front| ==> front[j] == ts[j];
      }
      CollectedLastWins(front, i);
      assert KeyOf(ts[|ts| - 1]) != KeyOf(ts[i]);
    }
  }

  /** The transfers that `keep` accepts collected into a map, a later transfer for the same
    * pair replacing an earlier one. */
  function CollectedWhere(ts: seq<Transfer>, keep: Transfer -> bool): (tm: TransferMap)
    ensures Keyed(tm)
    decreases |ts|
  {
    if ts == [] then map[]
    else
      var m := CollectedWhere(ts[..|ts| - 1], keep);
      var t := ts[|ts| - 1];
      if keep(t) then m[KeyOf(t) := t] else m
  }

  /** A pair is in the map iff some accepted transfer has it. */
  lemma {:induction false} CollectedWhereKeys(ts: seq<Transfer>, keep: Transfer -> bool)
    ensures forall k :: k in CollectedWhere(ts, keep) <==> exists i :: 0 <= i < |ts| && keep(ts[i]) && KeyOf(ts[i]) == k
    decreases |ts|
  {
    if ts != [] {
      var front := ts[..|ts| - 1];
      CollectedWhereKeys(front, keep);
      assert forall i :: 0 <= i < |front| ==> front[i] == ts[i];
    }
  }

  /** What the map holds are accepted transfers of the sequence. */
  lemma {:induction false} CollectedWhereValues(ts: seq<Transfer>, keep: Transfer -> bool)
    ensures forall k :: k in CollectedWhere(ts, keep) ==> CollectedWhere(ts, keep)[k] in ts && keep(CollectedWhere(ts, keep)[k])
    decreases |ts|
  {
    if ts != [] {
      var front := ts[..|ts| - 1];
      CollectedWhereValues(front, keep);
      assert forall t :: t in front ==> t in ts;
    }
  }

  /** The transfer is accepted and no later accepted transfer has its pair. */
  predicate LastKept(ts: seq<Transfer>, keep: Transfer -> bool, i: int)
    requires 0 <= i < |ts|
  {
    keep(ts[i]) && forall j :: i < j < |ts| && keep(ts[j]) ==> KeyOf(ts[j]) != KeyOf(ts[i])
  }

  /** For each pair, the map holds the last accepted transfer with that pair. */
  lemma {:induction false} CollectedWhereLastWins(ts: seq<Transfer>, keep: Transfer -> bool, i: nat)
    requires i < |ts| && LastKept(ts, keep, i)
    ensures KeyOf(ts[i]) in CollectedWhere(ts, keep) && CollectedWhere(ts, keep)[KeyOf(ts[i])] == ts[i]
    decreases |ts|
  {
    var front := ts[..|ts| - 1];
    if i < |front| {
      assert LastKept(front, keep, i) by {
        assert forall j :: i < j < |front| ==> front[j] == ts[j];
      }
      CollectedWhereLastWins(front, keep, i);
    }
  }

  /** `remove_unwanted_transfers`: the transfers whose pair a rule names are dropped, and
    * only those. */
  function RemoveUnwanted(tm: TransferMap, ruleKeys: set<Key>): (r: TransferMap)
    ensures forall k :: k in r <==> k in tm && k !in ruleKeys
    ensures forall k :: k in r ==> r[k] == tm[k]
  {
    map k | k in tm && k !in ruleKeys :: tm[k]
  }

  lemma RemoveUnwantedKeyed(tm: TransferMap, ruleKeys: set<Key>)
    requires Keyed(tm)
    ensures Keyed(RemoveUnwanted(tm, ruleKeys))
  {
  }

  /** A set of pairs in ascending order. */
  function SortedKeys(ks: set<Key>): (keys: seq<Key>)
    ensures |keys| == |ks|
    ensures forall i :: 0 <= i < |keys| ==> keys[i] in ks
    ensures forall k :: k in ks ==> k in keys
    ensures forall i, j :: 0 <= i < j < |keys| ==> PairBelow(keys[i], keys[j]) && keys[i] != keys[j]
  {
    PairOrder();
    AscendingSorted(ks, PairBelow);
    Ascending(ks, PairBelow)
  }

  /** The transfers of a map sorted by `(from_stop_id, to_stop_id)`, as the output is. */
  function Sorted(tm: TransferMap): seq<Transfer>
  {
    var keys := SortedKeys(tm.Keys);
    seq(|keys|, i requires 0 <= i < |keys| => tm[keys[i]])
  }

  /** The sorted output holds the transfers of the map and only those, one per pair. */
  lemma SortedSpec(tm: TransferMap)
    requires Keyed(tm)
    ensures |Sorted(tm)| == |tm|
    ensures forall t :: t in Sorted(tm) <==> exists k :: k in tm && tm[k] == t
  {
    var keys := SortedKeys(tm.Keys);
    var r := Sorted(tm);
    assert |tm| == |tm.Keys|;
    forall t | exists k :: k in tm && tm[k] == t
      ensures t in r
    {
      var k :| k in tm && tm[k] == t;
      assert r[IndexOf(keys, k)] == t;
    }
  }

  /** The sorted output is in strictly ascending order of pairs. */
  lemma SortedAscending(tm: TransferMap)
    requires Keyed(tm)
    ensures forall i, j :: 0 <= i < j < |Sorted(tm)| ==> PairBelow(KeyOf(Sorted(tm)[i]), KeyOf(Sorted(tm)[j]))
  {
    var keys := SortedKeys(tm.Keys);
    assert forall i :: 0 <= i < |keys| ==> KeyOf(Sorted(tm)[i]) == keys[i];
  }

  /** A pair has a transfer in the sorted output iff it has one in the map, and then it is
    * the map's. */
  lemma SortedHas(tm: TransferMap, k: Key)
    requires Keyed(tm)
    ensures (exists t :: t in Sorted(tm) && KeyOf(t) == k) <==> k in tm
    ensures k in tm ==> tm[k] in Sorted(tm)
  {
    SortedSpec(tm);
    if k in tm {
      assert tm[k] in Sorted(tm) && KeyOf(tm[k]) == k;
    }
  }

  /** The position of an element of a sequence. */
  function IndexOf<T(==)>(s: seq<T>, x: T): (i: nat)
    requires x in s
    ensures i < |s| && s[i] == x
  {
    if s[0] == x then 0 else 1 + IndexOf(s[1..], x)
  }
}
