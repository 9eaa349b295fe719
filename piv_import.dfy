/** The PIV import's own steps (piv2ntfs/src/piv/mod.rs): the dataset's validity period is
  * reset before the plans are read, and once they are read a transfer is generated between
  * every two stop points of each stop area, a stop point to itself included. */
module PivImport {
  import opened Wrappers
  import opened IdCollection
  import SeqFacts
  import R = PivRead
  import TM = TransferModel
  import opened Dates

  /** `init_dataset_validity_period`: the period starts at the last representable date and
    * ends at the first. */
  function InitDatasetValidityPeriod(ds: R.Dataset): (r: R.Dataset)
    ensures r.id == ds.id
    ensures R.ValidityPeriod(r.start_date, r.end_date) == R.EmptyPeriod
  {
    ds.(start_date := MaximumDate, end_date := MinimumDate)
  }

  /** The reset period is neutral for widening: after the first date it covers exactly that
    * date, whatever the dataset's period was before. */
  lemma InitThenWiden(ds: R.Dataset, d: Date)
    requires Representable(d)
    ensures var r := InitDatasetValidityPeriod(ds);
      R.SetValidityPeriod(d, R.ValidityPeriod(r.start_date, r.end_date)) == R.ValidityPeriod(d, d)
  {
  }

  const MinTransferTime := 300
  const WaitingTime := 120

  /** The stop points of an area, in the order of the collection. */
  function AreaPoints(points: seq<R.StopPoint>, areaId: string): (r: seq<R.StopPoint>)
    ensures forall p :: p in r <==> p in points && p.stop_area_id == areaId
    ensures |r| <= |points|
    decreases |points|
  {
    if points == [] then []
    else
      var p := points[|points| - 1];
      assert points == points[..|points| - 1] + [p];
      AreaPoints(points[..|points| - 1], areaId) + (if p.stop_area_id == areaId then [p] else [])
  }

  /** The transfer between two stop points: none to wait for a stop point to itself, the
    * minimum transfer time between two different ones, and the waiting time on top. */
  function TransferBetween(from: R.StopPoint, to: R.StopPoint): TM.Transfer
  {
    if from == to then TM.Transfer(from.id, to.id, Some(0), Some(WaitingTime), None)
    else TM.Transfer(from.id, to.id, Some(MinTransferTime), Some(MinTransferTime + WaitingTime), None)
  }

  /** The transfers from one stop point to each of `tos`, in order. */
  function FromTransfers(from: R.StopPoint, tos: seq<R.StopPoint>): (r: seq<TM.Transfer>)
    ensures |r| == |tos|
    decreases |tos|
  {
    if tos == [] then [] else FromTransfers(from, tos[..|tos| - 1]) + [TransferBetween(from, tos[|tos| - 1])]
  }

  /** The transfers from each of `froms` to each of `tos`, the inner loop over `tos`. */
  function PairTransfers(froms: seq<R.StopPoint>, tos: seq<R.StopPoint>): seq<TM.Transfer>
    decreases |froms|
  {
    if froms == [] then [] else PairTransfers(froms[..|froms| - 1], tos) + FromTransfers(froms[|froms| - 1], tos)
  }

  /** The transfers of each area in turn, between its stop points. */
  function AreaTransfers(areas: seq<R.StopArea>, points: seq<R.StopPoint>): seq<TM.Transfer>
    decreases |areas|
  {
    if areas == [] then []
    else
      var ps := AreaPoints(points, areas[|areas| - 1].id);
      AreaTransfers(areas[..|areas| - 1], points) + PairTransfers(ps, ps)
  }

  /** A self transfer takes 0 and 120 seconds; one between different stop points 300 and 420. */
  lemma TransferTimes(from: R.StopPoint, to: R.StopPoint)
    ensures var t := TransferBetween(from, to);
      && t.from_stop_id == from.id && t.to_stop_id == to.id && t.equipment_id.None?
      && (from == to ==> t.min_transfer_time == Some(0) && t.real_min_transfer_time == Some(120))
      && (from != to ==> t.min_transfer_time == Some(300) && t.real_min_transfer_time == Some(420))
  {
  }

  lemma {:induction false} FromTransfersAt(from: R.StopPoint, tos: seq<R.StopPoint>, j: nat)
    requires j < |tos|
    ensures FromTransfers(from, tos)[j] == TransferBetween(from, tos[j])
    decreases |tos|
  {
    if j < |tos| - 1 {
      FromTransfersAt(from, tos[..|tos| - 1], j);
    }
  }

  lemma MulPred(n: nat, m: nat)
    requires n >= 1
    ensures (n - 1) * m + m == n * m
  {
  }

  lemma MulStep(i: nat, j: nat, n: nat, m: nat)
    requires i < n && j < m
    ensures i * m + j < n * m
    ensures i < n - 1 ==> i * m + j < (n - 1) * m
    ensures i == n - 1 ==> (n - 1) * m <= i * m + j
  {
    if i < n - 1 {
      assert i * m + j < (i + 1) * m <= (n - 1) * m;
    }
  }

  /** There are `|froms| * |tos|` transfers, and the one at `i * |tos| + j` goes from the `i`-th
    * to the `j`-th stop point: the order of the two nested loops. */
  lemma {:induction false} PairTransfersAt(froms: seq<R.StopPoint>, tos: seq<R.StopPoint>, i: nat, j: nat)
    requires i < |froms| && j < |tos|
    ensures |PairTransfers(froms, tos)| == |froms| * |tos|
    ensures i * |tos| + j < |PairTransfers(froms, tos)|
    ensures PairTransfers(froms, tos)[i * |tos| + j] == TransferBetween(froms[i], tos[j])
    decreases |froms|
  {
    var n, m := |froms|, |tos|;
    var front := froms[..n - 1];
    PairTransfersLength(front, tos);
    PairTransfersLength(froms, tos);
    MulStep(i, j, n, m);
    assert PairTransfers(froms, tos) == PairTransfers(front, tos) + FromTransfers(froms[n - 1], tos);
    if i < n - 1 {
      PairTransfersAt(front, tos, i, j);
    } else {
      FromTransfersAt(froms[n - 1], tos, j);
      assert i * m + j - |PairTransfers(front, tos)| == j;
    }
  }

  lemma {:induction false} PairTransfersLength(froms: seq<R.StopPoint>, tos: seq<R.StopPoint>)
    ensures |PairTransfers(froms, tos)| == |froms| * |tos|
    decreases |froms|
  {
    if froms != [] {
      PairTransfersLength(froms[..|froms| - 1], tos);
      MulPred(|froms|, |tos|);
    }
  }

  /** An area with `n` stop points yields `n * n` transfers. */
  lemma AreaPairCount(ps: seq<R.StopPoint>)
    ensures |PairTransfers(ps, ps)| == |ps| * |ps|
  {
    PairTransfersLength(ps, ps);
  }

  /** Every transfer of a pair loop is between one of `froms` and one of `tos`. */
  lemma {:induction false} PairTransfersOrigin(froms: seq<R.StopPoint>, tos: seq<R.StopPoint>)
    ensures forall t :: t in PairTransfers(froms, tos) ==> exists p, q :: p in froms && q in tos && t == TransferBetween(p, q)
    decreases |froms|
  {
    if froms != [] {
      var front := froms[..|froms| - 1];
      PairTransfersOrigin(front, tos);
      var from := froms[|froms| - 1];
      forall t | t in FromTransfers(from, tos)
        ensures exists q :: q in tos && t == TransferBetween(from, q)
      {
        var j :| 0 <= j < |tos| && FromTransfers(from, tos)[j] == t;
        FromTransfersAt(from, tos, j);
      }
      assert forall p :: p in front ==> p in froms;
    }
  }

  /** Every generated transfer is between two stop points of the same known area: stop points
    * whose area is not among the stop areas generate nothing. */
  lemma {:induction false} AreaTransfersOrigin(areas: seq<R.StopArea>, points: seq<R.StopPoint>)
    ensures forall t :: t in AreaTransfers(areas, points) ==>
      exists p, q :: p in points && q in points && p.stop_area_id == q.stop_area_id
        && p.stop_area_id in IdSet(areas, R.StopAreaKey) && t == TransferBetween(p, q)
    decreases |areas|
  {
    if areas != [] {
      var front := areas[..|areas| - 1];
      var a := areas[|areas| - 1];
      AreaTransfersOrigin(front, points);
      var ps := AreaPoints(points, a.id);
      PairTransfersOrigin(ps, ps);
      assert R.StopAreaKey(areas[|areas| - 1]) == a.id;
      assert IdSet(front, R.StopAreaKey) <= IdSet(areas, R.StopAreaKey) by {
        assert forall k :: 0 <= k < |front| ==> front[k] == areas[k];
      }
    }
  }

  /** The number of transfers: the sum over the areas of the square of their number of stop
    * points. */
  function SquaresCount(areas: seq<R.StopArea>, points: seq<R.StopPoint>): nat
    decreases |areas|
  {
    if areas == [] then 0
    else
      var n := |AreaPoints(points, areas[|areas| - 1].id)|;
      SquaresCount(areas[..|areas| - 1], points) + n * n
  }

  lemma {:induction false} AreaTransfersCount(areas: seq<R.StopArea>, points: seq<R.StopPoint>)
    ensures |AreaTransfers(areas, points)| == SquaresCount(areas, points)
    decreases |areas|
  {
    if areas != [] {
      AreaTransfersCount(areas[..|areas| - 1], points);
      var ps := AreaPoints(points, areas[|areas| - 1].id);
      AreaPairCount(ps);
    }
  }

  /** Among stop points with distinct ids, a transfer is a self transfer, with no transfer
    * time, iff it goes from a stop point to the same one. */
  lemma SelfTransferIffSameStop(ps: seq<R.StopPoint>, i: nat, j: nat)
    requires UniqueIds(ps, R.StopPointKey) && i < |ps| && j < |ps|
    ensures TransferBetween(ps[i], ps[j]).min_transfer_time == Some(0) <==> i == j
  {
    if i != j {
      assert R.StopPointKey(ps[i]) != R.StopPointKey(ps[j]) by {
        if i < j {} else {}
      }
    }
  }

  /** `generate_transfers`: for each stop area, a transfer is pushed from each of its stop
    * points to each of them; it always succeeds. */
  method GenerateTransfers(c: R.Collections) returns (d: R.Collections, r: Result<(), string>)
    ensures d == c.(transfers := c.transfers + AreaTransfers(c.stop_areas, c.stop_points))
    ensures r == Ok(())
  {
    var transfers := c.transfers;
    for i := 0 to |c.stop_areas|
      invariant transfers == c.transfers + AreaTransfers(c.stop_areas[..i], c.stop_points)
    {
      SeqFacts.PrefixStep(c.stop_areas, i);
      var ps := AreaPoints(c.stop_points, c.stop_areas[i].id);
      var before := transfers;
      transfers := PushAreaTransfers(ps, transfers);
      SeqFacts.AppendAssoc(c.transfers, AreaTransfers(c.stop_areas[..i], c.stop_points), PairTransfers(ps, ps));
    }
    SeqFacts.WholePrefix(c.stop_areas);
    d := c.(transfers := transfers);
    r := Ok(());
  }

  /** The two nested loops over the stop points of one area. */
  method PushAreaTransfers(ps: seq<R.StopPoint>, transfers: seq<TM.Transfer>) returns (r: seq<TM.Transfer>)
    ensures r == transfers + PairTransfers(ps, ps)
  {
    r := transfers;
    for k := 0 to |ps|
      invariant r == transfers + PairTransfers(ps[..k], ps)
    {
      SeqFacts.PrefixStep(ps, k);
      var from := ps[k];
      var row := r;
      for l := 0 to |ps|
        invariant r == row + FromTransfers(from, ps[..l])
      {
        SeqFacts.PrefixStep(ps, l);
        SeqFacts.AppendAssoc(row, FromTransfers(from, ps[..l]), [TransferBetween(from, ps[l])]);
        r := r + [TransferBetween(from, ps[l])];
      }
      SeqFacts.WholePrefix(ps);
      SeqFacts.AppendAssoc(transfers, PairTransfers(ps[..k], ps), FromTransfers(from, ps));
    }
    SeqFacts.WholePrefix(ps);
  }

  /** The case of an area with two stop points: four transfers, the first from the first stop
    * point to itself with 0 and 120 seconds, the second from the first to the second with 300
    * and 420 seconds. */
  lemma TwoPointsExample()
    ensures var sp1 := R.StopPoint("SP1", "", "SA");
      var sp2 := R.StopPoint("SP2", "", "SA");
      var ts := AreaTransfers([R.StopArea("SA", "")], [sp1, sp2]);
      && |ts| == 4
      && ts[0] == TM.Transfer("SP1", "SP1", Some(0), Some(120), None)
      && ts[1] == TM.Transfer("SP1", "SP2", Some(300), Some(420), None)
  {
    var sp1 := R.StopPoint("SP1", "", "SA");
    var sp2 := R.StopPoint("SP2", "", "SA");
    var ps := AreaPoints([sp1, sp2], "SA");
    assert [sp1, sp2][..1] == [sp1];
    assert ps == [sp1, sp2];
    assert sp1 != sp2;
    PairTransfersAt(ps, ps, 0, 0);
    PairTransfersAt(ps, ps, 0, 1);
    assert AreaTransfers([R.StopArea("SA", "")], [sp1, sp2]) == [] + PairTransfers(ps, ps);
  }
}
