/** Manual transfer rules of the `transfers` tool (transfers/src/rules.rs). Rules name a pair
  * of stops, each a stop point or a stop area; a stop-area rule stands for every pair of its
  * stop points. Rules for pairs that need no transfer or that name missing stops are
  * reported and dropped; for one pair the last rule read wins. The transfers the rules name
  * are then removed, those with a transfer time are added back with the rule's times, and the
  * result is sorted by pair of stops. */
module TransfersRules {
  import opened Wrappers
  import opened IdCollection
  import Report
  import Ordering
  import TM = TransferModel
  import SeqFacts

  datatype ReportCategory = Ignored | OnUnreferencedStop | OnNonExistentStop | AlreadyDeclared

  type Row = Report.ReportRow<ReportCategory>

  datatype StopType = StopPoint | StopArea

  datatype Rule = Rule(from_stop_type: StopType, from_stop_id: string, to_stop_type: StopType, to_stop_id: string,
                       transfer_time: Option<nat>, waiting_time: Option<nat>)

  datatype Dataset = Dataset(stop_points: seq<TM.StopPoint>, stop_areas: seq<TM.StopArea>)

  function KeyOf(r: Rule): TM.Key { (r.from_stop_id, r.to_stop_id) }

  // ----- expanding stop-area rules -----

  /** The ids of the stop points of an area, in collection order. */
  function PointsOfArea(sps: seq<TM.StopPoint>, areaId: string): (ids: seq<string>)
    ensures |ids| <= |sps|
    ensures forall x :: x in ids <==> exists k :: 0 <= k < |sps| && sps[k].stop_area_id == areaId && sps[k].id == x
    decreases |sps|
  {
    if sps == [] then []
    else
      var front := PointsOfArea(sps[..|sps| - 1], areaId);
      var sp := sps[|sps| - 1];
      assert forall k :: 0 <= k < |sps| - 1 ==> sps[..|sps| - 1][k] == sps[k];
      if sp.stop_area_id == areaId then front + [sp.id] else front
  }

  function UnknownAreaRow(id: string): Row
  {
    Report.ReportRow(OnNonExistentStop, "manual transfer references a non-existent stop area (" + id + ")")
  }

  /** `get_stop_point_ids`: a stop point stands for itself, a known stop area for its stop
    * points, and an unknown stop area for nothing, with a warning. */
  function StopPointIds(ds: Dataset, t: StopType, id: string): (seq<string>, seq<Row>)
  {
    match t
    case StopPoint => ([id], [])
    case StopArea =>
      if id in IdSet(ds.stop_areas, TM.StopAreaKey) then (PointsOfArea(ds.stop_points, id), [])
      else ([], [UnknownAreaRow(id)])
  }

  /** The stop-point rule between two stop points, with the times of `rule`. */
  function PointRule(from: string, to: string, rule: Rule): Rule
  {
    Rule(StopPoint, from, StopPoint, to, rule.transfer_time, rule.waiting_time)
  }

  /** The stop-point rules for `froms × tos`, row by row. */
  function Product(froms: seq<string>, tos: seq<string>, rule: Rule): seq<Rule>
    decreases |froms|
  {
    if froms == [] then []
    else
      Product(froms[..|froms| - 1], tos, rule)
        + seq(|tos|, j requires 0 <= j < |tos| => PointRule(froms[|froms| - 1], tos[j], rule))
  }

  /** The product holds one rule per pair of a `from` and a `to`, each between stop points and
    * carrying the rule's times. */
  lemma {:induction false} ProductSpec(froms: seq<string>, tos: seq<string>, rule: Rule)
    ensures |Product(froms, tos, rule)| == |froms| * |tos|
    ensures forall x :: x in Product(froms, tos, rule) <==>
      exists i, j :: 0 <= i < |froms| && 0 <= j < |tos| && x == PointRule(froms[i], tos[j], rule)
    decreases |froms|
  {
    if froms != [] {
      var front := froms[..|froms| - 1];
      ProductSpec(front, tos, rule);
      assert forall i :: 0 <= i < |front| ==> front[i] == froms[i];
      var last := seq(|tos|, j requires 0 <= j < |tos| => PointRule(froms[|froms| - 1], tos[j], rule));
      forall x | x in last ensures exists i, j :: 0 <= i < |froms| && 0 <= j < |tos| && x == PointRule(froms[i], tos[j], rule) {
        var j :| 0 <= j < |tos| && last[j] == x;
        assert x == PointRule(froms[|front|], tos[j], rule);
      }
      forall x | exists i, j :: 0 <= i < |froms| && 0 <= j < |tos| && x == PointRule(froms[i], tos[j], rule)
        ensures x in Product(froms, tos, rule)
      {
        var i, j :| 0 <= i < |froms| && 0 <= j < |tos| && x == PointRule(froms[i], tos[j], rule);
        if i == |front| {
          assert last[j] == x;
        }
      }
      assert |froms| * |tos| == |front| * |tos| + |tos|;
    }
  }

  /** `expand`: the rule's stop points on each side, the warnings of the `from` side first,
    * and the product of the two sides. */
  function Expanded(rule: Rule, ds: Dataset): (seq<Rule>, seq<Row>)
  {
    var (froms, w1) := StopPointIds(ds, rule.from_stop_type, rule.from_stop_id);
    var (tos, w2) := StopPointIds(ds, rule.to_stop_type, rule.to_stop_id);
    (Product(froms, tos, rule), w1 + w2)
  }

  /** `id` names a stop point of the dataset in the stop area `areaId`. */
  predicate InArea(ds: Dataset, areaId: string, id: string)
  {
    exists k :: 0 <= k < |ds.stop_points| && ds.stop_points[k].stop_area_id == areaId && ds.stop_points[k].id == id
  }

  /** `id` is one of the stop points a side of a rule stands for. */
  predicate OnSide(ds: Dataset, t: StopType, sideId: string, id: string)
  {
    match t
    case StopPoint => id == sideId
    case StopArea => InArea(ds, sideId, id)
  }

  /** The side names a stop area the dataset does not have. */
  predicate UnknownArea(ds: Dataset, t: StopType, sideId: string)
  {
    t == StopArea && sideId !in IdSet(ds.stop_areas, TM.StopAreaKey)
  }

  /** The stop points a side stands for are those `OnSide` names. */
  lemma StopPointIdsOnSide(ds: Dataset, t: StopType, id: string)
    ensures forall x :: x in StopPointIds(ds, t, id).0 ==> OnSide(ds, t, id, x)
  {
  }

  /** A stop-point rule expands to itself, with no warning. */
  lemma ExpandedPoints(rule: Rule, ds: Dataset)
    requires rule.from_stop_type == StopPoint && rule.to_stop_type == StopPoint
    ensures Expanded(rule, ds) == ([PointRule(rule.from_stop_id, rule.to_stop_id, rule)], [])
  {
    var froms := [rule.from_stop_id];
    var tos := [rule.to_stop_id];
    assert StopPointIds(ds, rule.from_stop_type, rule.from_stop_id) == (froms, []);
    assert StopPointIds(ds, rule.to_stop_type, rule.to_stop_id) == (tos, []);
    assert froms[..0] == [];
    var row := seq(|tos|, j requires 0 <= j < |tos| => PointRule(froms[0], tos[j], rule));
    assert row == [PointRule(rule.from_stop_id, rule.to_stop_id, rule)];
    assert Product(froms, tos, rule) == Product([], tos, rule) + row;
    assert Product([], tos, rule) == [];
    assert Expanded(rule, ds).0 == Product(froms, tos, rule);
    assert Expanded(rule, ds).1 == [];
    assert Expanded(rule, ds).0 == [PointRule(rule.from_stop_id, rule.to_stop_id, rule)];
  }

  /** A rule naming an unknown stop area expands to nothing and is reported. */
  lemma ExpandedUnknownArea(rule: Rule, ds: Dataset)
    requires UnknownArea(ds, rule.from_stop_type, rule.from_stop_id) || UnknownArea(ds, rule.to_stop_type, rule.to_stop_id)
    ensures Expanded(rule, ds).0 == []
    ensures exists t :: 0 <= t < |Expanded(rule, ds).1| && Expanded(rule, ds).1[t].category == OnNonExistentStop
  {
    var (froms, w1) := StopPointIds(ds, rule.from_stop_type, rule.from_stop_id);
    var (tos, w2) := StopPointIds(ds, rule.to_stop_type, rule.to_stop_id);
    ProductSpec(froms, tos, rule);
    if UnknownArea(ds, rule.from_stop_type, rule.from_stop_id) {
      assert (w1 + w2)[0] == w1[0];
    } else {
      assert (w1 + w2)[|w1|] == w2[0];
    }
  }

  /** Each expanded rule is between stop points, carries the rule's times, and joins a stop
    * point of the `from` side to one of the `to` side. */
  lemma ExpandedSides(rule: Rule, ds: Dataset)
    ensures forall x :: x in Expanded(rule, ds).0 ==>
      x.from_stop_type == StopPoint && x.to_stop_type == StopPoint
      && x.transfer_time == rule.transfer_time && x.waiting_time == rule.waiting_time
      && OnSide(ds, rule.from_stop_type, rule.from_stop_id, x.from_stop_id)
      && OnSide(ds, rule.to_stop_type, rule.to_stop_id, x.to_stop_id)
  {
    var (froms, w1) := StopPointIds(ds, rule.from_stop_type, rule.from_stop_id);
    var (tos, w2) := StopPointIds(ds, rule.to_stop_type, rule.to_stop_id);
    ProductSpec(froms, tos, rule);
    StopPointIdsOnSide(ds, rule.from_stop_type, rule.from_stop_id);
    StopPointIdsOnSide(ds, rule.to_stop_type, rule.to_stop_id);
    forall x | x in Expanded(rule, ds).0
      ensures OnSide(ds, rule.from_stop_type, rule.from_stop_id, x.from_stop_id)
      ensures OnSide(ds, rule.to_stop_type, rule.to_stop_id, x.to_stop_id)
    {
      var i, j :| 0 <= i < |froms| && 0 <= j < |tos| && x == PointRule(froms[i], tos[j], rule);
      assert froms[i] in froms && tos[j] in tos;
    }
  }

  // ----- checking and inserting a stop-point rule -----

  function UnreferencedRow(id: string): Row
  {
    Report.ReportRow(OnUnreferencedStop,
                     "stop point " + id + " belongs to none of the trips and will not generate any transfer")
  }

  /** `stop_points_need_transfer`, with the warnings it files. */
  function NeedTransfer(ds: Dataset, from: nat, to: nat, onlyInter: bool): (bool, seq<Row>)
    requires from < |ds.stop_points| && to < |ds.stop_points|
  {
    if !onlyInter then (true, [])
    else if ds.stop_points[from].contributors == {} then (false, [UnreferencedRow(ds.stop_points[from].id)])
    else if ds.stop_points[to].contributors == {} then (false, [UnreferencedRow(ds.stop_points[to].id)])
    else (ds.stop_points[from].contributors != ds.stop_points[to].contributors, [])
  }

  /** Without `only_inter` every pair needs a transfer; with it, a pair needs one iff both
    * stops have contributors and their contributor sets differ. A stop without contributors
    * is reported. */
  lemma NeedTransferSpec(ds: Dataset, from: nat, to: nat, onlyInter: bool)
    requires from < |ds.stop_points| && to < |ds.stop_points|
    ensures var (need, ws) := NeedTransfer(ds, from, to, onlyInter);
      var cf := ds.stop_points[from].contributors;
      var ct := ds.stop_points[to].contributors;
      (need <==> !onlyInter || (cf != {} && ct != {} && cf != ct))
      && (ws != [] <==> onlyInter && (cf == {} || ct == {}))
      && forall t :: 0 <= t < |ws| ==> ws[t].category == OnUnreferencedStop
  {
  }

  function IgnoredRow(from: string, fromArea: string, to: string, toArea: string): Row
  {
    Report.ReportRow(Ignored, "transfer between stop point " + from + " (stop area " + fromArea + ") and stop point "
                              + to + " (stop area " + toArea + ") is ignored")
  }

  function MissingPointRow(id: string): Row
  {
    Report.ReportRow(OnNonExistentStop, "manual transfer references a non-existent stop point (" + id + ")")
  }

  function MissingPointsRow(from: string, to: string): Row
  {
    Report.ReportRow(OnNonExistentStop, "manual transfer references non-existent stop points (" + from + " and " + to + ")")
  }

  type RuleMap = map<TM.Key, Rule>

  /** `check_and_insert_rule`: the rule map afterwards and the warnings filed. */
  function InsertRule(rules: RuleMap, rule: Rule, ds: Dataset, onlyInter: bool): (RuleMap, seq<Row>)
  {
    var sps := ds.stop_points;
    match (GetIdx(sps, TM.StopPointKey, rule.from_stop_id), GetIdx(sps, TM.StopPointKey, rule.to_stop_id))
    case (Some(from), Some(to)) =>
      var (need, ws) := NeedTransfer(ds, from, to, onlyInter);
      if need then
        var k := KeyOf(rule);
        var replaced := if k in rules
                        then [IgnoredRow(rules[k].from_stop_id, sps[from].stop_area_id, rules[k].to_stop_id, sps[to].stop_area_id)]
                        else [];
        (rules[k := rule], ws + replaced)
      else
        (rules, ws + [IgnoredRow(rule.from_stop_id, sps[from].stop_area_id, rule.to_stop_id, sps[to].stop_area_id)])
    case (Some(_), None) => (rules, [MissingPointRow(rule.to_stop_id)])
    case (None, Some(_)) => (rules, [MissingPointRow(rule.from_stop_id)])
    case (None, None) => (rules, [MissingPointsRow(rule.from_stop_id, rule.to_stop_id)])
  }

  /** The rule names two stop points of the dataset that need a transfer. */
  predicate Accepted(ds: Dataset, onlyInter: bool, rule: Rule)
  {
    var sps := ds.stop_points;
    match (GetIdx(sps, TM.StopPointKey, rule.from_stop_id), GetIdx(sps, TM.StopPointKey, rule.to_stop_id))
    case (Some(from), Some(to)) => NeedTransfer(ds, from, to, onlyInter).0
    case _ => false
  }

  /** The category of the last warning about a rule that is dropped. */
  function DropCategory(ds: Dataset, rule: Rule): ReportCategory
  {
    if rule.from_stop_id in IdSet(ds.stop_points, TM.StopPointKey) && rule.to_stop_id in IdSet(ds.stop_points, TM.StopPointKey)
    then Ignored
    else OnNonExistentStop
  }

  /** An accepted rule replaces any rule for its pair, and the replaced one is reported as
    * Ignored. */
  lemma InsertRuleAccepted(rules: RuleMap, rule: Rule, ds: Dataset, onlyInter: bool)
    requires Accepted(ds, onlyInter, rule)
    ensures InsertRule(rules, rule, ds, onlyInter).0 == rules[KeyOf(rule) := rule]
    ensures KeyOf(rule) in rules ==>
      var ws := InsertRule(rules, rule, ds, onlyInter).1;
      ws != [] && ws[|ws| - 1].category == Ignored
  {
    var sps := ds.stop_points;
    var from := GetIdx(sps, TM.StopPointKey, rule.from_stop_id).value;
    var to := GetIdx(sps, TM.StopPointKey, rule.to_stop_id).value;
    var ws := NeedTransfer(ds, from, to, onlyInter).1;
    if KeyOf(rule) in rules {
      var last := IgnoredRow(rules[KeyOf(rule)].from_stop_id, sps[from].stop_area_id, rules[KeyOf(rule)].to_stop_id,
                             sps[to].stop_area_id);
      assert InsertRule(rules, rule, ds, onlyInter).1 == ws + [last];
    }
  }

  /** Any other rule leaves the map unchanged and is reported, last as Ignored when it needs
    * no transfer and as OnNonExistentStop when a stop is missing. */
  lemma InsertRuleDropped(rules: RuleMap, rule: Rule, ds: Dataset, onlyInter: bool)
    requires !Accepted(ds, onlyInter, rule)
    ensures InsertRule(rules, rule, ds, onlyInter).0 == rules
    ensures var ws := InsertRule(rules, rule, ds, onlyInter).1;
      ws != [] && ws[|ws| - 1].category == DropCategory(ds, rule)
  {
  }

  /** The map after one rule: updated at its pair iff the rule is accepted. */
  lemma InsertRuleMap(rules: RuleMap, rule: Rule, ds: Dataset, onlyInter: bool)
    ensures InsertRule(rules, rule, ds, onlyInter).0
            == if Accepted(ds, onlyInter, rule) then rules[KeyOf(rule) := rule] else rules
  {
    if Accepted(ds, onlyInter, rule) {
      InsertRuleAccepted(rules, rule, ds, onlyInter);
    } else {
      InsertRuleDropped(rules, rule, ds, onlyInter);
    }
  }

  /** An accepted rule names two stop points of the dataset. */
  lemma AcceptedResolves(ds: Dataset, onlyInter: bool, rule: Rule)
    requires Accepted(ds, onlyInter, rule)
    ensures rule.from_stop_id in IdSet(ds.stop_points, TM.StopPointKey)
    ensures rule.to_stop_id in IdSet(ds.stop_points, TM.StopPointKey)
  {
  }

  /** The rules inserted one after the other. */
  function InsertAll(rules: RuleMap, rs: seq<Rule>, ds: Dataset, onlyInter: bool): (RuleMap, seq<Row>)
    decreases |rs|
  {
    if rs == [] then (rules, [])
    else
      var p := InsertAll(rules, rs[..|rs| - 1], ds, onlyInter);
      var q := InsertRule(p.0, rs[|rs| - 1], ds, onlyInter);
      (q.0, p.1 + q.1)
  }

  /** The map the rules leave: each accepted rule written under its pair, in order. */
  function Accepting(rules: RuleMap, rs: seq<Rule>, ds: Dataset, onlyInter: bool): RuleMap
    decreases |rs|
  {
    if rs == [] then rules
    else
      var m := Accepting(rules, rs[..|rs| - 1], ds, onlyInter);
      var last := rs[|rs| - 1];
      if Accepted(ds, onlyInter, last) then m[KeyOf(last) := last] else m
  }

  /** The map the checks and insertions leave is the one the accepted rules write. */
  lemma {:induction false} InsertAllAccepting(rules: RuleMap, rs: seq<Rule>, ds: Dataset, onlyInter: bool)
    ensures InsertAll(rules, rs, ds, onlyInter).0 == Accepting(rules, rs, ds, onlyInter)
    decreases |rs|
  {
    if rs != [] {
      InsertAllAccepting(rules, rs[..|rs| - 1], ds, onlyInter);
      InsertRuleMap(InsertAll(rules, rs[..|rs| - 1], ds, onlyInter).0, rs[|rs| - 1], ds, onlyInter);
    }
  }

  /** The rule is the last accepted one for its pair. */
  predicate LastAccepted(ds: Dataset, onlyInter: bool, rs: seq<Rule>, i: int)
    requires 0 <= i < |rs|
  {
    Accepted(ds, onlyInter, rs[i])
    && forall j :: i < j < |rs| && Accepted(ds, onlyInter, rs[j]) ==> KeyOf(rs[j]) != KeyOf(rs[i])
  }

  /** For one pair, the last accepted rule wins. */
  lemma {:induction false} LastAcceptedWins(rules: RuleMap, rs: seq<Rule>, ds: Dataset, onlyInter: bool, i: nat)
    requires i < |rs| && LastAccepted(ds, onlyInter, rs, i)
    ensures KeyOf(rs[i]) in Accepting(rules, rs, ds, onlyInter)
    ensures Accepting(rules, rs, ds, onlyInter)[KeyOf(rs[i])] == rs[i]
    decreases |rs|
  {
    var front := rs[..|rs| - 1];
    if i < |front| {
      assert LastAccepted(ds, onlyInter, front, i) by {
        assert forall j :: i < j < |front| ==> front[j] == rs[j];
      }
      LastAcceptedWins(rules, front, ds, onlyInter, i);
    }
  }

  /** Some accepted rule names the pair `k`. */
  predicate AcceptedKey(ds: Dataset, onlyInter: bool, rs: seq<Rule>, k: TM.Key)
  {
    exists i :: 0 <= i < |rs| && Accepted(ds, onlyInter, rs[i]) && KeyOf(rs[i]) == k
  }

  /** A pair is named by an accepted rule of `rs` iff by one before the last or by the last. */
  lemma AcceptedKeySnoc(ds: Dataset, onlyInter: bool, rs: seq<Rule>, k: TM.Key)
    requires rs != []
    ensures AcceptedKey(ds, onlyInter, rs, k) <==>
      AcceptedKey(ds, onlyInter, rs[..|rs| - 1], k) || (Accepted(ds, onlyInter, rs[|rs| - 1]) && KeyOf(rs[|rs| - 1]) == k)
  {
    var front := rs[..|rs| - 1];
    if AcceptedKey(ds, onlyInter, rs, k) {
      var i :| 0 <= i < |rs| && Accepted(ds, onlyInter, rs[i]) && KeyOf(rs[i]) == k;
      if i < |front| {
        assert front[i] == rs[i];
      }
    }
    if AcceptedKey(ds, onlyInter, front, k) {
      var i :| 0 <= i < |front| && Accepted(ds, onlyInter, front[i]) && KeyOf(front[i]) == k;
      assert front[i] == rs[i];
    }
  }

  /** The pairs of the map afterwards are those before and those of the accepted rules. */
  lemma {:induction false} AcceptingDomain(rules: RuleMap, rs: seq<Rule>, ds: Dataset, onlyInter: bool)
    ensures forall k :: k in Accepting(rules, rs, ds, onlyInter) <==> k in rules || AcceptedKey(ds, onlyInter, rs, k)
    decreases |rs|
  {
    if rs != [] {
      AcceptingDomain(rules, rs[..|rs| - 1], ds, onlyInter);
      forall k ensures k in Accepting(rules, rs, ds, onlyInter) <==> k in rules || AcceptedKey(ds, onlyInter, rs, k) {
        AcceptedKeySnoc(ds, onlyInter, rs, k);
      }
    }
  }

  /** A pair no accepted rule names keeps its rule. */
  lemma {:induction false} AcceptingUntouched(rules: RuleMap, rs: seq<Rule>, ds: Dataset, onlyInter: bool, k: TM.Key)
    requires k in rules && !AcceptedKey(ds, onlyInter, rs, k)
    ensures k in Accepting(rules, rs, ds, onlyInter) && Accepting(rules, rs, ds, onlyInter)[k] == rules[k]
    decreases |rs|
  {
    if rs != [] {
      var front := rs[..|rs| - 1];
      assert forall i :: 0 <= i < |front| ==> front[i] == rs[i];
      assert !AcceptedKey(ds, onlyInter, front, k);
      AcceptingUntouched(rules, front, ds, onlyInter, k);
    }
  }

  /** Every rule of the map sits under its own pair. */
  predicate RulesKeyed(rules: RuleMap)
  {
    forall k :: k in rules ==> KeyOf(rules[k]) == k
  }

  /** Every rule of the map names two stop points of the dataset. */
  predicate RulesResolve(ds: Dataset, rules: RuleMap)
  {
    forall k :: k in rules ==> rules[k].from_stop_id in IdSet(ds.stop_points, TM.StopPointKey)
                               && rules[k].to_stop_id in IdSet(ds.stop_points, TM.StopPointKey)
  }

  lemma {:induction false} AcceptingKeyed(rules: RuleMap, rs: seq<Rule>, ds: Dataset, onlyInter: bool)
    requires RulesKeyed(rules) && RulesResolve(ds, rules)
    ensures RulesKeyed(Accepting(rules, rs, ds, onlyInter)) && RulesResolve(ds, Accepting(rules, rs, ds, onlyInter))
    decreases |rs|
  {
    if rs != [] {
      AcceptingKeyed(rules, rs[..|rs| - 1], ds, onlyInter);
      if Accepted(ds, onlyInter, rs[|rs| - 1]) {
        AcceptedResolves(ds, onlyInter, rs[|rs| - 1]);
      }
    }
  }

  // ----- reading the rule files -----

  /** A rule file as read: each row a rule, or `None` for a row that does not deserialize. */
  datatype RuleFile = RuleFile(name: string, rows: seq<Option<Rule>>)

  function Tagged(f: RuleFile): (r: seq<(string, Option<Rule>)>)
    ensures |r| == |f.rows| && forall k :: 0 <= k < |r| ==> r[k] == (f.name, f.rows[k])
  {
    seq(|f.rows|, k requires 0 <= k < |f.rows| => (f.name, f.rows[k]))
  }

  function Rows(files: seq<RuleFile>): seq<(string, Option<Rule>)>
    decreases |files|
  {
    if files == [] then [] else Rows(files[..|files| - 1]) + Tagged(files[|files| - 1])
  }

  function ReadError(name: string): string
  {
    "Error reading \"" + name + "\""
  }

  /** The state of the reading loop: the rules so far, or the error that stopped it, and the
    * warnings filed until then. */
  type ReadState = (Result<RuleMap, string>, seq<Row>)

  /** One row read into `rules`: a row that does not deserialize is the error; a rule is
    * expanded and each of its stop-point rules checked and inserted. */
  function RowStep(rules: RuleMap, row: (string, Option<Rule>), ds: Dataset, onlyInter: bool): ReadState
  {
    if row.1.None? then (Err(ReadError(row.0)), [])
    else
      var (ex, w1) := Expanded(row.1.value, ds);
      var (m, w2) := InsertAll(rules, ex, ds, onlyInter);
      (Ok(m), w1 + w2)
  }

  /** One row read after the state `p`: an error stops the reading. */
  function ReadRow(p: ReadState, row: (string, Option<Rule>), ds: Dataset, onlyInter: bool): ReadState
  {
    if p.0.Err? then p
    else
      var q := RowStep(p.0.value, row, ds, onlyInter);
      (q.0, p.1 + q.1)
  }

  /** `read_rules` over the rows of all files in turn. */
  function ReadRules(rows: seq<(string, Option<Rule>)>, ds: Dataset, onlyInter: bool): ReadState
    decreases |rows|
  {
    if rows == [] then (Ok(map[]), [])
    else ReadRow(ReadRules(rows[..|rows| - 1], ds, onlyInter), rows[|rows| - 1], ds, onlyInter)
  }

  lemma ReadRulesSnoc(rows: seq<(string, Option<Rule>)>, row: (string, Option<Rule>), ds: Dataset, onlyInter: bool)
    ensures ReadRules(rows + [row], ds, onlyInter) == ReadRow(ReadRules(rows, ds, onlyInter), row, ds, onlyInter)
  {
    assert (rows + [row])[..|rows|] == rows;
  }

  /** Reading fails iff some row does not deserialize, with the error of the first such row. */
  lemma {:induction false} ReadRulesFails(rows: seq<(string, Option<Rule>)>, ds: Dataset, onlyInter: bool)
    ensures ReadRules(rows, ds, onlyInter).0.Err? <==> exists k :: 0 <= k < |rows| && rows[k].1.None?
    ensures ReadRules(rows, ds, onlyInter).0.Err? ==>
      exists k :: 0 <= k < |rows| && rows[k].1.None? && ReadRules(rows, ds, onlyInter).0.error == ReadError(rows[k].0)
                  && forall j :: 0 <= j < k ==> rows[j].1.Some?
    decreases |rows|
  {
    if rows != [] {
      var front := rows[..|rows| - 1];
      ReadRulesFails(front, ds, onlyInter);
      assert forall k :: 0 <= k < |front| ==> front[k] == rows[k];
      if ReadRules(front, ds, onlyInter).0.Ok? && rows[|front|].1.None? {
        assert forall j :: 0 <= j < |front| ==> rows[j].1.Some?;
      }
    }
  }

  /** The rules read are keyed by their pair and name stop points of the dataset. */
  lemma {:induction false} ReadRulesKeyed(rows: seq<(string, Option<Rule>)>, ds: Dataset, onlyInter: bool)
    ensures ReadRules(rows, ds, onlyInter).0.Ok? ==>
      RulesKeyed(ReadRules(rows, ds, onlyInter).0.value) && RulesResolve(ds, ReadRules(rows, ds, onlyInter).0.value)
    decreases |rows|
  {
    if rows != [] {
      var p := ReadRules(rows[..|rows| - 1], ds, onlyInter);
      ReadRulesKeyed(rows[..|rows| - 1], ds, onlyInter);
      var row := rows[|rows| - 1];
      if p.0.Ok? && row.1.Some? {
        InsertAllAccepting(p.0.value, Expanded(row.1.value, ds).0, ds, onlyInter);
        AcceptingKeyed(p.0.value, Expanded(row.1.value, ds).0, ds, onlyInter);
      }
    }
  }

  // ----- updating the transfers -----

  /** The rules read, in ascending order of their pairs. */
  function RuleSeq(rules: RuleMap): (r: seq<Rule>)
  {
    var keys := TM.SortedKeys(rules.Keys);
    seq(|keys|, i requires 0 <= i < |keys| => rules[keys[i]])
  }

  /** No two rules name the same pair. */
  predicate DistinctKeys(rules: seq<Rule>)
  {
    forall i, j :: 0 <= i < j < |rules| ==> KeyOf(rules[i]) != KeyOf(rules[j])
  }

  /** The rule sequence of a keyed map names no pair twice, and each of its rules is the
    * map's rule for its pair. */
  lemma RuleSeqDistinct(rules: RuleMap)
    requires RulesKeyed(rules)
    ensures DistinctKeys(RuleSeq(rules))
    ensures forall i :: 0 <= i < |RuleSeq(rules)| ==> KeyOf(RuleSeq(rules)[i]) in rules
    ensures forall i :: 0 <= i < |RuleSeq(rules)| ==> rules[KeyOf(RuleSeq(rules)[i])] == RuleSeq(rules)[i]
  {
    var keys := TM.SortedKeys(rules.Keys);
    assert forall i :: 0 <= i < |keys| ==> KeyOf(RuleSeq(rules)[i]) == keys[i];
  }

  /** The rule sequence names exactly the map's pairs. */
  lemma RuleSeqKeys(rules: RuleMap)
    requires RulesKeyed(rules)
    ensures RuleKeys(RuleSeq(rules)) == rules.Keys
  {
    var keys := TM.SortedKeys(rules.Keys);
    var rs := RuleSeq(rules);
    RuleSeqDistinct(rules);
    forall k | k in rules.Keys
      ensures k in RuleKeys(rs)
    {
      var i := TM.IndexOf(keys, k);
      assert rs[i] == rules[k];
    }
  }

  /** The real transfer time of a rule: its transfer time plus its own waiting time, or the
    * default waiting time. */
  function RealTime(r: Rule, waiting: nat): nat
    requires r.transfer_time.Some?
  {
    r.transfer_time.value + if r.waiting_time.Some? then r.waiting_time.value else waiting
  }

  /** The transfer for the pair of a rule with a transfer time `t`: the existing one with
    * its times set, or a new one without equipment. */
  function Timed(tm: TM.TransferMap, r: Rule, waiting: nat): TM.Transfer
    requires r.transfer_time.Some?
  {
    var k := KeyOf(r);
    if k in tm then tm[k].(min_transfer_time := r.transfer_time, real_min_transfer_time := Some(RealTime(r, waiting)))
    else TM.Transfer(r.from_stop_id, r.to_stop_id, r.transfer_time, Some(RealTime(r, waiting)), None)
  }

  /** The timed transfer sits under the rule's pair, its minimum time is the rule's transfer
    * time and its real time adds the waiting time; an existing transfer keeps its equipment,
    * a new one has none. */
  lemma TimedSpec(tm: TM.TransferMap, r: Rule, waiting: nat)
    requires TM.Keyed(tm) && r.transfer_time.Some?
    ensures var t := Timed(tm, r, waiting);
      TM.KeyOf(t) == KeyOf(r) && t.min_transfer_time == r.transfer_time
      && t.real_min_transfer_time == Some(r.transfer_time.value + if r.waiting_time.Some? then r.waiting_time.value else waiting)
      && t.equipment_id == if KeyOf(r) in tm then tm[KeyOf(r)].equipment_id else None
  {
  }

  /** One rule of `add_missing_transfers`: a rule with a transfer time sets the transfer of
    * its pair. */
  function AddMissingOne(tm: TM.TransferMap, r: Rule, waiting: nat): TM.TransferMap
  {
    if r.transfer_time.None? then tm else tm[KeyOf(r) := Timed(tm, r, waiting)]
  }

  function AddMissing(tm: TM.TransferMap, rules: seq<Rule>, waiting: nat): TM.TransferMap
    decreases |rules|
  {
    if rules == [] then tm
    else AddMissingOne(AddMissing(tm, rules[..|rules| - 1], waiting), rules[|rules| - 1], waiting)
  }

  /** No two rules name the same pair. */
  /** Some rule with a transfer time names the pair `k`. */
  predicate TimedKey(rules: seq<Rule>, k: TM.Key)
  {
    exists i :: 0 <= i < |rules| && rules[i].transfer_time.Some? && KeyOf(rules[i]) == k
  }

  /** With distinct pairs, the transfer of a rule with a transfer time is the one that rule
    * makes from the map before any rule: the order of the rules does not matter. */
  lemma {:induction false} AddMissingAt(tm: TM.TransferMap, rules: seq<Rule>, waiting: nat, i: nat)
    requires DistinctKeys(rules) && i < |rules| && rules[i].transfer_time.Some?
    ensures KeyOf(rules[i]) in AddMissing(tm, rules, waiting)
    ensures AddMissing(tm, rules, waiting)[KeyOf(rules[i])] == Timed(tm, rules[i], waiting)
    decreases |rules|
  {
    var front := rules[..|rules| - 1];
    if i < |front| {
      assert DistinctKeys(front) by {
        assert forall j :: 0 <= j < |front| ==> front[j] == rules[j];
      }
      AddMissingAt(tm, front, waiting, i);
      assert KeyOf(rules[i]) != KeyOf(rules[|front|]);
    } else {
      AddMissingElsewhere(tm, front, waiting, KeyOf(rules[i]));
    }
  }

  /** A pair no rule with a transfer time names keeps its transfer, or its absence. */
  lemma {:induction false} AddMissingElsewhere(tm: TM.TransferMap, rules: seq<Rule>, waiting: nat, k: TM.Key)
    requires DistinctKeys(rules) && !TimedKey(rules, k)
    ensures k in AddMissing(tm, rules, waiting) <==> k in tm
    ensures k in tm ==> AddMissing(tm, rules, waiting)[k] == tm[k]
    decreases |rules|
  {
    if rules != [] {
      var front := rules[..|rules| - 1];
      assert forall j :: 0 <= j < |front| ==> front[j] == rules[j];
      assert DistinctKeys(front);
      assert !TimedKey(front, k);
      AddMissingElsewhere(tm, front, waiting, k);
    }
  }

  lemma {:induction false} AddMissingKeyed(tm: TM.TransferMap, rules: seq<Rule>, waiting: nat)
    requires TM.Keyed(tm)
    ensures TM.Keyed(AddMissing(tm, rules, waiting))
    decreases |rules|
  {
    if rules != [] {
      AddMissingKeyed(tm, rules[..|rules| - 1], waiting);
    }
  }

  /** `add_missing_transfers`. */
  method AddMissingTransfers(tm: TM.TransferMap, rules: seq<Rule>, waiting: nat) returns (r: TM.TransferMap)
    ensures r == AddMissing(tm, rules, waiting)
  {
    r := tm;
    for i := 0 to |rules|
      invariant r == AddMissing(tm, rules[..i], waiting)
    {
      SeqFacts.PrefixStep(rules, i);
      var rule := rules[i];
      if rule.transfer_time.Some? {
        var t := rule.transfer_time.value;
        var realTime := t + if rule.waiting_time.Some? then rule.waiting_time.value else waiting;
        var k := (rule.from_stop_id, rule.to_stop_id);
        if k in r {
          r := r[k := r[k].(min_transfer_time := Some(t), real_min_transfer_time := Some(realTime))];
        } else {
          r := r[k := TM.Transfer(rule.from_stop_id, rule.to_stop_id, Some(t), Some(realTime), None)];
        }
      }
    }
    SeqFacts.WholePrefix(rules);
  }

  /** The pairs the rules name. */
  function RuleKeys(rules: seq<Rule>): (ks: set<TM.Key>)
    ensures forall k :: k in ks <==> exists i :: 0 <= i < |rules| && KeyOf(rules[i]) == k
  {
    set i | 0 <= i < |rules| :: KeyOf(rules[i])
  }

  /** The transfers after the rules: unchanged without rules; otherwise the named ones removed
    * and those with a transfer time added back. */
  function Updated(tm: TM.TransferMap, rules: seq<Rule>, waiting: nat): TM.TransferMap
  {
    if rules == [] then tm else AddMissing(TM.RemoveUnwanted(tm, RuleKeys(rules)), rules, waiting)
  }

  /** After non-empty rules, the pair of a rule has a transfer iff the rule carries a
    * transfer time, and then it is the transfer the rule makes from a map without it. */
  lemma UpdatedAt(tm: TM.TransferMap, rules: seq<Rule>, waiting: nat, i: nat)
    requires DistinctKeys(rules) && i < |rules|
    ensures KeyOf(rules[i]) in Updated(tm, rules, waiting) <==> rules[i].transfer_time.Some?
    ensures rules[i].transfer_time.Some? ==>
      Updated(tm, rules, waiting)[KeyOf(rules[i])] == Timed(map[], rules[i], waiting)
  {
    var removed := TM.RemoveUnwanted(tm, RuleKeys(rules));
    assert KeyOf(rules[i]) !in removed;
    if rules[i].transfer_time.Some? {
      AddMissingAt(removed, rules, waiting, i);
    } else {
      assert !TimedKey(rules, KeyOf(rules[i]));
      AddMissingElsewhere(removed, rules, waiting, KeyOf(rules[i]));
    }
  }

  /** A pair no rule names keeps its transfer, or its absence. */
  lemma UpdatedElsewhere(tm: TM.TransferMap, rules: seq<Rule>, waiting: nat, k: TM.Key)
    requires DistinctKeys(rules) && k !in RuleKeys(rules)
    ensures k in Updated(tm, rules, waiting) <==> k in tm
    ensures k in tm ==> Updated(tm, rules, waiting)[k] == tm[k]
  {
    if rules != [] {
      AddMissingElsewhere(TM.RemoveUnwanted(tm, RuleKeys(rules)), rules, waiting, k);
    }
  }

  // ----- apply_rules -----

  /** The transfers of the dataset collected by pair and updated by the rules read. */
  function Output(transfers: seq<TM.Transfer>, rules: RuleMap, waiting: nat): TM.TransferMap
  {
    Updated(TM.Collected(transfers), RuleSeq(rules), waiting)
  }

  /** `apply_rules`: the transfers of the dataset collected by pair, updated by the rules read
    * when there are any, and sorted by pair; or the error that stopped the reading. The
    * warnings are the report's. Collecting the transfers resolves their stop points with
    * `unwrap`, before any rule is read. */
  function ApplyRulesSpec(ds: Dataset, transfers: seq<TM.Transfer>, waiting: nat, onlyInter: bool,
                          files: seq<RuleFile>): (Result<seq<TM.Transfer>, string>, seq<Row>)
    requires TM.AllResolvable(ds.stop_points, transfers)
  {
    var (rr, ws) := ReadRules(Rows(files), ds, onlyInter);
    match rr
    case Err(e) => (Err(e), ws)
    case Ok(rules) => (Ok(TM.Sorted(Output(transfers, rules, waiting))), ws)
  }

  lemma OutputKeyed(transfers: seq<TM.Transfer>, rules: RuleMap, waiting: nat)
    ensures TM.Keyed(Output(transfers, rules, waiting))
  {
    var tm := TM.Collected(transfers);
    var rs := RuleSeq(rules);
    if rs != [] {
      TM.RemoveUnwantedKeyed(tm, RuleKeys(rs));
      AddMissingKeyed(TM.RemoveUnwanted(tm, RuleKeys(rs)), rs, waiting);
    }
  }

  /** A successful run outputs each resulting transfer once, sorted by pair of stops, and
    * every rule read names stop points of the dataset. */
  lemma ApplyRulesSorted(ds: Dataset, transfers: seq<TM.Transfer>, waiting: nat, onlyInter: bool, files: seq<RuleFile>)
    requires TM.AllResolvable(ds.stop_points, transfers)
    requires ReadRules(Rows(files), ds, onlyInter).0.Ok?
    ensures var out := ApplyRulesSpec(ds, transfers, waiting, onlyInter, files).0.value;
      forall i, j :: 0 <= i < j < |out| ==> Ordering.PairBelow(TM.KeyOf(out[i]), TM.KeyOf(out[j]))
    ensures RulesResolve(ds, ReadRules(Rows(files), ds, onlyInter).0.value)
  {
    var rules := ReadRules(Rows(files), ds, onlyInter).0.value;
    ReadRulesKeyed(Rows(files), ds, onlyInter);
    OutputKeyed(transfers, rules, waiting);
    TM.SortedAscending(Output(transfers, rules, waiting));
  }

  /** The pair of a rule of a keyed map has an output transfer iff the rule carries a
    * transfer time, and then it is a new transfer with the rule's times. */
  lemma OutputRule(transfers: seq<TM.Transfer>, rules: RuleMap, waiting: nat, k: TM.Key)
    requires RulesKeyed(rules) && k in rules
    ensures k in Output(transfers, rules, waiting) <==> rules[k].transfer_time.Some?
    ensures rules[k].transfer_time.Some? ==> Output(transfers, rules, waiting)[k] == Timed(map[], rules[k], waiting)
  {
    var rs := RuleSeq(rules);
    RuleSeqDistinct(rules);
    var i := TM.IndexOf(TM.SortedKeys(rules.Keys), k);
    assert rs[i] == rules[k];
    UpdatedAt(TM.Collected(transfers), rs, waiting, i);
  }

  /** After a successful run, the pair of a rule read has a transfer iff the rule carries a
    * transfer time, and then it is a new transfer with the rule's times and no equipment. */
  lemma ApplyRulesRule(ds: Dataset, transfers: seq<TM.Transfer>, waiting: nat, onlyInter: bool, files: seq<RuleFile>,
                       k: TM.Key)
    requires TM.AllResolvable(ds.stop_points, transfers)
    requires ReadRules(Rows(files), ds, onlyInter).0.Ok?
    requires k in ReadRules(Rows(files), ds, onlyInter).0.value
    ensures var out := ApplyRulesSpec(ds, transfers, waiting, onlyInter, files).0.value;
      var rule := ReadRules(Rows(files), ds, onlyInter).0.value[k];
      ((exists t :: t in out && TM.KeyOf(t) == k) <==> rule.transfer_time.Some?)
      && (rule.transfer_time.Some? ==> Timed(map[], rule, waiting) in out)
  {
    var rules := ReadRules(Rows(files), ds, onlyInter).0.value;
    ReadRulesKeyed(Rows(files), ds, onlyInter);
    OutputRule(transfers, rules, waiting, k);
    OutputKeyed(transfers, rules, waiting);
    TM.SortedHas(Output(transfers, rules, waiting), k);
  }

  /** After a successful run, a transfer of the dataset whose pair no rule names is output
    * unchanged, unless a later transfer of the dataset has the same pair. */
  lemma ApplyRulesUntouched(ds: Dataset, transfers: seq<TM.Transfer>, waiting: nat, onlyInter: bool,
                            files: seq<RuleFile>, i: nat)
    requires TM.AllResolvable(ds.stop_points, transfers)
    requires ReadRules(Rows(files), ds, onlyInter).0.Ok?
    requires i < |transfers| && TM.LastOfKey(transfers, i)
    requires TM.KeyOf(transfers[i]) !in ReadRules(Rows(files), ds, onlyInter).0.value
    ensures transfers[i] in ApplyRulesSpec(ds, transfers, waiting, onlyInter, files).0.value
  {
    var rules := ReadRules(Rows(files), ds, onlyInter).0.value;
    ReadRulesKeyed(Rows(files), ds, onlyInter);
    var rs := RuleSeq(rules);
    RuleSeqDistinct(rules);
    RuleSeqKeys(rules);
    var k := TM.KeyOf(transfers[i]);
    TM.CollectedLastWins(transfers, i);
    UpdatedElsewhere(TM.Collected(transfers), rs, waiting, k);
    OutputKeyed(transfers, rules, waiting);
    TM.SortedHas(Output(transfers, rules, waiting), k);
  }

  // ----- the imperative reading loop -----

  /** `get_stop_point_ids`. */
  method GetStopPointIds(ds: Dataset, t: StopType, id: string, report: Report.Report<ReportCategory>)
    returns (ids: seq<string>)
    modifies report
    ensures var s := StopPointIds(ds, t, id);
      ids == s.0 && report.warnings == Report.RecordAll(old(report.warnings), s.1)
      && report.errors == old(report.errors)
  {
    match t {
      case StopPoint =>
        ids := [id];
      case StopArea =>
        if GetIdx(ds.stop_areas, TM.StopAreaKey, id).Some? {
          ids := PointsOfArea(ds.stop_points, id);
        } else {
          var row := UnknownAreaRow(id);
          report.AddWarning(row.message, row.category);
          ids := [];
        }
    }
  }

  /** `Rule::expand`: the two sides, then the rules of their product pushed row by row. */
  method Expand(rule: Rule, ds: Dataset, report: Report.Report<ReportCategory>) returns (rules: seq<Rule>)
    modifies report
    ensures var e := Expanded(rule, ds);
      rules == e.0 && report.warnings == Report.RecordAll(old(report.warnings), e.1)
      && report.errors == old(report.errors)
  {
    var froms := GetStopPointIds(ds, rule.from_stop_type, rule.from_stop_id, report);
    ghost var w1 := report.warnings;
    var tos := GetStopPointIds(ds, rule.to_stop_type, rule.to_stop_id, report);
    Report.RecordAllConcat(old(report.warnings), StopPointIds(ds, rule.from_stop_type, rule.from_stop_id).1,
                           StopPointIds(ds, rule.to_stop_type, rule.to_stop_id).1);
    rules := [];
    ghost var w, e := report.warnings, report.errors;
    for i := 0 to |froms|
      invariant rules == Product(froms[..i], tos, rule)
      invariant report.warnings == w && report.errors == e
    {
      SeqFacts.PrefixStep(froms, i);
      for j := 0 to |tos|
        invariant rules == Product(froms[..i], tos, rule)
                           + seq(j, k requires 0 <= k < j => PointRule(froms[i], tos[k], rule))
        invariant report.warnings == w && report.errors == e
      {
        rules := rules + [PointRule(froms[i], tos[j], rule)];
      }
    }
    SeqFacts.WholePrefix(froms);
  }

  /** `check_and_insert_rule`. */
  method CheckAndInsertRule(rules: RuleMap, rule: Rule, ds: Dataset, onlyInter: bool,
                            report: Report.Report<ReportCategory>) returns (r: RuleMap)
    modifies report
    ensures var ins := InsertRule(rules, rule, ds, onlyInter);
      r == ins.0 && report.warnings == Report.RecordAll(old(report.warnings), ins.1)
      && report.errors == old(report.errors)
  {
    var sps := ds.stop_points;
    var from := GetIdx(sps, TM.StopPointKey, rule.from_stop_id);
    var to := GetIdx(sps, TM.StopPointKey, rule.to_stop_id);
    r := rules;
    if from.Some? && to.Some? {
      var (need, ws) := NeedTransfer(ds, from.value, to.value, onlyInter);
      if |ws| == 1 {
        report.AddWarning(ws[0].message, ws[0].category);
      }
      ghost var w := report.warnings;
      var k := (rule.from_stop_id, rule.to_stop_id);
      var last: Row;
      if need {
        if k in rules {
          last := IgnoredRow(rules[k].from_stop_id, sps[from.value].stop_area_id, rules[k].to_stop_id,
                             sps[to.value].stop_area_id);
          report.AddWarning(last.message, last.category);
          Report.RecordAllConcat(old(report.warnings), ws, [last]);
        }
        r := rules[k := rule];
      } else {
        last := IgnoredRow(rule.from_stop_id, sps[from.value].stop_area_id, rule.to_stop_id,
                           sps[to.value].stop_area_id);
        report.AddWarning(last.message, last.category);
        Report.RecordAllConcat(old(report.warnings), ws, [last]);
      }
    } else if from.Some? {
      var row := MissingPointRow(rule.to_stop_id);
      report.AddWarning(row.message, row.category);
    } else if to.Some? {
      var row := MissingPointRow(rule.from_stop_id);
      report.AddWarning(row.message, row.category);
    } else {
      var row := MissingPointsRow(rule.from_stop_id, rule.to_stop_id);
      report.AddWarning(row.message, row.category);
    }
  }

  /** The expanded rules checked and inserted in turn. */
  method InsertRules(rules: RuleMap, rs: seq<Rule>, ds: Dataset, onlyInter: bool,
                     report: Report.Report<ReportCategory>) returns (r: RuleMap)
    modifies report
    ensures var ins := InsertAll(rules, rs, ds, onlyInter);
      r == ins.0 && report.warnings == Report.RecordAll(old(report.warnings), ins.1)
      && report.errors == old(report.errors)
  {
    r := rules;
    ghost var ws: seq<Row> := [];
    for i := 0 to |rs|
      invariant (r, ws) == InsertAll(rules, rs[..i], ds, onlyInter)
      invariant report.warnings == Report.RecordAll(old(report.warnings), ws)
      invariant report.errors == old(report.errors)
    {
      SeqFacts.PrefixStep(rs, i);
      ghost var step := InsertRule(r, rs[i], ds, onlyInter);
      r := CheckAndInsertRule(r, rs[i], ds, onlyInter, report);
      Report.RecordAllConcat(old(report.warnings), ws, step.1);
      ws := ws + step.1;
    }
    SeqFacts.WholePrefix(rs);
  }

  /** One row of a rule file read. */
  method ReadOneRow(rules: RuleMap, row: (string, Option<Rule>), ds: Dataset, onlyInter: bool,
                    report: Report.Report<ReportCategory>) returns (r: Result<RuleMap, string>)
    modifies report
    ensures var q := RowStep(rules, row, ds, onlyInter);
      r == q.0 && report.warnings == Report.RecordAll(old(report.warnings), q.1)
      && report.errors == old(report.errors)
  {
    if row.1.None? {
      return Err(ReadError(row.0));
    }
    var ex := Expand(row.1.value, ds, report);
    var m := InsertRules(rules, ex, ds, onlyInter, report);
    Report.RecordAllConcat(old(report.warnings), Expanded(row.1.value, ds).1, InsertAll(rules, ex, ds, onlyInter).1);
    r := Ok(m);
  }

  /** Once reading has failed, later rows change nothing. */
  lemma {:induction false} ReadRulesStopped(rows: seq<(string, Option<Rule>)>, more: seq<(string, Option<Rule>)>,
                                            ds: Dataset, onlyInter: bool)
    requires ReadRules(rows, ds, onlyInter).0.Err?
    ensures ReadRules(rows + more, ds, onlyInter) == ReadRules(rows, ds, onlyInter)
    decreases |more|
  {
    if more == [] {
      assert rows + more == rows;
    } else {
      var front := more[..|more| - 1];
      ReadRulesStopped(rows, front, ds, onlyInter);
      assert rows + more == (rows + front) + [more[|more| - 1]];
      ReadRulesSnoc(rows + front, more[|more| - 1], ds, onlyInter);
    }
  }

  /** Once reading has failed within `rows`, the rest of `rows` changes nothing. */
  lemma ReadRulesStoppedAt(before: seq<(string, Option<Rule>)>, rows: seq<(string, Option<Rule>)>, n: nat,
                           ds: Dataset, onlyInter: bool)
    requires n <= |rows| && ReadRules(before + rows[..n], ds, onlyInter).0.Err?
    ensures ReadRules(before + rows, ds, onlyInter) == ReadRules(before + rows[..n], ds, onlyInter)
  {
    assert before + rows == (before + rows[..n]) + rows[n..];
    ReadRulesStopped(before + rows[..n], rows[n..], ds, onlyInter);
  }

  lemma {:induction false} RowsAppend(a: seq<RuleFile>, b: seq<RuleFile>)
    ensures Rows(a + b) == Rows(a) + Rows(b)
    decreases |b|
  {
    if b == [] {
      assert a + b == a;
    } else {
      var front := b[..|b| - 1];
      RowsAppend(a, front);
      SeqFacts.AppendFront(a, b);
      SeqFacts.AppendAssoc(Rows(a), Rows(front), Tagged(b[|b| - 1]));
    }
  }

  lemma RowsSnoc(files: seq<RuleFile>, i: nat)
    requires i < |files|
    ensures Rows(files[..i + 1]) == Rows(files[..i]) + Tagged(files[i])
  {
    SeqFacts.PrefixStep(files, i);
  }

  /** Once reading has failed in the first `n` files, the later files change nothing. */
  lemma ReadFilesStopped(files: seq<RuleFile>, n: nat, ds: Dataset, onlyInter: bool)
    requires n <= |files| && ReadRules(Rows(files[..n]), ds, onlyInter).0.Err?
    ensures ReadRules(Rows(files), ds, onlyInter) == ReadRules(Rows(files[..n]), ds, onlyInter)
  {
    SeqFacts.SplitAt(files, n);
    RowsAppend(files[..n], files[n..]);
    ReadRulesStopped(Rows(files[..n]), Rows(files[n..]), ds, onlyInter);
  }

  /** One row read after the rows `before`. */
  method ReadFileRow(row: (string, Option<Rule>), ghost before: seq<(string, Option<Rule>)>, rules: RuleMap,
                     ds: Dataset, onlyInter: bool, ghost ws: seq<Row>, ghost w0: seq<Row>,
                     report: Report.Report<ReportCategory>)
    returns (r: Result<RuleMap, string>, ghost ws': seq<Row>)
    requires ReadRules(before, ds, onlyInter) == (Ok(rules), ws)
    requires report.warnings == Report.RecordAll(w0, ws)
    modifies report
    ensures ReadRules(before + [row], ds, onlyInter) == (r, ws')
    ensures report.warnings == Report.RecordAll(w0, ws') && report.errors == old(report.errors)
  {
    ReadRulesSnoc(before, row, ds, onlyInter);
    ghost var step := RowStep(rules, row, ds, onlyInter);
    r := ReadOneRow(rules, row, ds, onlyInter, report);
    Report.RecordAllConcat(w0, ws, step.1);
    ws' := ws + step.1;
  }

  /** The rows of one rule file read in turn, after the rows `before`; the first row that
    * does not deserialize ends the reading. */
  method ReadRuleFile(f: RuleFile, ghost before: seq<(string, Option<Rule>)>, rules: RuleMap, ds: Dataset,
                      onlyInter: bool, ghost ws: seq<Row>, ghost w0: seq<Row>, report: Report.Report<ReportCategory>)
    returns (r: Result<RuleMap, string>, ghost ws': seq<Row>)
    requires ReadRules(before, ds, onlyInter) == (Ok(rules), ws)
    requires report.warnings == Report.RecordAll(w0, ws)
    modifies report
    ensures ReadRules(before + Tagged(f), ds, onlyInter) == (r, ws')
    ensures report.warnings == Report.RecordAll(w0, ws') && report.errors == old(report.errors)
  {
    var tagged := Tagged(f);
    r, ws' := Ok(rules), ws;
    ghost var prefix := before;
    assert before + tagged[..0] == before;
    for j := 0 to |f.rows|
      invariant prefix == before + tagged[..j]
      invariant r.Ok? && ReadRules(prefix, ds, onlyInter) == (r, ws')
      invariant report.warnings == Report.RecordAll(w0, ws')
      invariant report.errors == old(report.errors)
    {
      r, ws' := ReadFileRow(tagged[j], prefix, r.value, ds, onlyInter, ws', w0, report);
      prefix := prefix + [tagged[j]];
      SeqFacts.SnocSlice(before, tagged, j);
      if r.Err? {
        ReadRulesStoppedAt(before, tagged, j + 1, ds, onlyInter);
        return;
      }
    }
    SeqFacts.WholePrefix(tagged);
  }

  /** `read_rules`: the files in turn; the first unreadable row ends the reading with its
    * error. */
  method ReadAllRules(files: seq<RuleFile>, ds: Dataset, onlyInter: bool, report: Report.Report<ReportCategory>)
    returns (r: Result<RuleMap, string>)
    modifies report
    ensures var rr := ReadRules(Rows(files), ds, onlyInter);
      r == rr.0 && report.warnings == Report.RecordAll(old(report.warnings), rr.1)
      && report.errors == old(report.errors)
  {
    r := Ok(map[]);
    ghost var ws: seq<Row> := [];
    for i := 0 to |files|
      invariant r.Ok? && ReadRules(Rows(files[..i]), ds, onlyInter) == (r, ws)
      invariant report.warnings == Report.RecordAll(old(report.warnings), ws)
      invariant report.errors == old(report.errors)
    {
      RowsSnoc(files, i);
      r, ws := ReadRuleFile(files[i], Rows(files[..i]), r.value, ds, onlyInter, ws, old(report.warnings), report);
      if r.Err? {
        ReadFilesStopped(files, i + 1, ds, onlyInter);
        return;
      }
    }
    SeqFacts.WholePrefix(files);
  }

  /** `apply_rules` with a fresh report: the transfers collected, the rules read, the
    * transfers updated and sorted. */
  method ApplyRules(ds: Dataset, transfers: seq<TM.Transfer>, waiting: nat, onlyInter: bool, files: seq<RuleFile>)
    returns (r: Result<seq<TM.Transfer>, string>, report: Report.Report<ReportCategory>)
    requires TM.AllResolvable(ds.stop_points, transfers)
    ensures var spec := ApplyRulesSpec(ds, transfers, waiting, onlyInter, files);
      r == spec.0 && report.warnings == Report.RecordAll([], spec.1) && report.errors == []
  {
    var tm := TM.Collected(transfers);
    report := new Report.Report();
    var rr := ReadAllRules(files, ds, onlyInter, report);
    if rr.Err? {
      return Err(rr.error), report;
    }
    var rs := RuleSeq(rr.value);
    if rs != [] {
      tm := TM.RemoveUnwanted(tm, RuleKeys(rs));
      tm := AddMissingTransfers(tm, rs, waiting);
    }
    r := Ok(TM.Sorted(tm));
  }
}
