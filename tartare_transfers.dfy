/** The transfer rules of the tartare `transfers` tool (src/transfers/rules.rs). The dataset's
  * transfers are first kept only where the transfers mode says a transfer is needed; rules,
  * each between two stop points, are then read from files. For one pair of stops the first
  * accepted rule wins. When there are rules, the transfers they name are removed and those
  * with a transfer time are added back; the result is sorted by pair of stops. */
module TartareTransfers {
  import opened Wrappers
  import opened IdCollection
  import Report
  import Ordering
  import TM = TransferModel
  import SeqFacts

  /** `TransfersMode`. */
  datatype TransfersMode = All | IntraContributor | InterContributor

  /** `ReportCategory` of src/transfers.rs. */
  datatype ReportCategory = IntraIgnored | InterIgnored | AllIgnored | OnUnreferencedStop | OnNonExistentStop
                          | AlreadyDeclared

  type Row = Report.ReportRow<ReportCategory>

  datatype Rule = Rule(from_stop_id: string, to_stop_id: string, transfer_time: Option<nat>)

  function KeyOf(r: Rule): TM.Key { (r.from_stop_id, r.to_stop_id) }

  type Points = seq<TM.StopPoint>

  // ----- which pairs of stops need a transfer -----

  function UnreferencedRow(id: string): Row
  {
    Report.ReportRow(OnUnreferencedStop,
                     "stop point " + id + " belongs to none of the trips and will not generate any transfer")
  }

  /** `stop_points_need_transfer`, with the warnings it files when it is given a report. */
  function NeedTransfer(sps: Points, from: nat, to: nat, mode: TransfersMode): (bool, seq<Row>)
    requires from < |sps| && to < |sps|
  {
    if mode == All then (true, [])
    else if sps[from].contributors == {} then (false, [UnreferencedRow(sps[from].id)])
    else if sps[to].contributors == {} then (false, [UnreferencedRow(sps[to].id)])
    else if mode == IntraContributor then (sps[from].contributors == sps[to].contributors, [])
    else (sps[from].contributors != sps[to].contributors, [])
  }

  /** In mode All every pair needs a transfer. Otherwise a pair needs one only if both stops
    * have contributors, and then iff their contributor sets are equal (IntraContributor) or
    * differ (InterContributor); a stop without contributors is reported. */
  lemma NeedTransferSpec(sps: Points, from: nat, to: nat, mode: TransfersMode)
    requires from < |sps| && to < |sps|
    ensures var (need, ws) := NeedTransfer(sps, from, to, mode);
      var cf := sps[from].contributors;
      var ct := sps[to].contributors;
      (mode == All ==> need)
      && (mode == IntraContributor ==> (need <==> cf != {} && ct != {} && cf == ct))
      && (mode == InterContributor ==> (need <==> cf != {} && ct != {} && cf != ct))
      && (ws != [] <==> mode != All && (cf == {} || ct == {}))
      && forall t :: 0 <= t < |ws| ==> ws[t].category == OnUnreferencedStop
  {
  }

  /** Between stops that both have contributors, exactly one of the two contributor modes
    * needs a transfer. */
  lemma NeedTransferModesComplement(sps: Points, from: nat, to: nat)
    requires from < |sps| && to < |sps|
    requires sps[from].contributors != {} && sps[to].contributors != {}
    ensures NeedTransfer(sps, from, to, IntraContributor).0 != NeedTransfer(sps, from, to, InterContributor).0
  {
  }

  /** The transfer's pair of stops needs a transfer in the mode. */
  predicate Needed(sps: Points, mode: TransfersMode, t: TM.Transfer)
    requires TM.Resolvable(sps, t)
  {
    NeedTransfer(sps, GetIdx(sps, TM.StopPointKey, t.from_stop_id).value,
                 GetIdx(sps, TM.StopPointKey, t.to_stop_id).value, mode).0
  }

  /** The transfers `filtered_transfers_map` keeps: those whose pair needs a transfer. */
  function Keep(sps: Points, mode: TransfersMode): TM.Transfer -> bool
  {
    t => TM.Resolvable(sps, t) && Needed(sps, mode, t)
  }

  /** `filtered_transfers_map`: the transfers that need one, collected by pair, a later
    * transfer for a pair replacing an earlier one. */
  function FilteredMap(sps: Points, ts: seq<TM.Transfer>, mode: TransfersMode): TM.TransferMap
  {
    TM.CollectedWhere(ts, Keep(sps, mode))
  }

  /** A pair is kept iff some transfer for it is needed. */
  lemma FilteredMapKeys(sps: Points, ts: seq<TM.Transfer>, mode: TransfersMode)
    requires TM.AllResolvable(sps, ts)
    ensures forall k :: k in FilteredMap(sps, ts, mode) <==>
      exists i :: 0 <= i < |ts| && Needed(sps, mode, ts[i]) && TM.KeyOf(ts[i]) == k
  {
    TM.CollectedWhereKeys(ts, Keep(sps, mode));
  }

  /** `t` is one of `ts` and its pair needs a transfer. */
  predicate NeededIn(sps: Points, mode: TransfersMode, ts: seq<TM.Transfer>, t: TM.Transfer)
  {
    t in ts && TM.Resolvable(sps, t) && Needed(sps, mode, t)
  }

  /** What is kept for a pair is one of the transfers, and its pair needs a transfer. */
  lemma FilteredMapValues(sps: Points, ts: seq<TM.Transfer>, mode: TransfersMode)
    ensures forall k :: k in FilteredMap(sps, ts, mode) ==> NeededIn(sps, mode, ts, FilteredMap(sps, ts, mode)[k])
  {
    TM.CollectedWhereValues(ts, Keep(sps, mode));
  }

  /** The transfer is needed and no later transfer for its pair is. */
  predicate LastNeeded(sps: Points, mode: TransfersMode, ts: seq<TM.Transfer>, i: int)
    requires TM.AllResolvable(sps, ts) && 0 <= i < |ts|
  {
    Needed(sps, mode, ts[i])
    && forall j :: i < j < |ts| && Needed(sps, mode, ts[j]) ==> TM.KeyOf(ts[j]) != TM.KeyOf(ts[i])
  }

  /** For one pair, the last needed transfer is the one kept. */
  lemma FilteredMapLastWins(sps: Points, ts: seq<TM.Transfer>, mode: TransfersMode, i: nat)
    requires TM.AllResolvable(sps, ts) && i < |ts| && LastNeeded(sps, mode, ts, i)
    ensures TM.KeyOf(ts[i]) in FilteredMap(sps, ts, mode) && FilteredMap(sps, ts, mode)[TM.KeyOf(ts[i])] == ts[i]
  {
    assert TM.LastKept(ts, Keep(sps, mode), i);
    TM.CollectedWhereLastWins(ts, Keep(sps, mode), i);
  }

  // ----- checking and inserting a rule -----

  /** The category of a rule between stops that need no transfer: the mode it is out of. */
  function IgnoredCategory(mode: TransfersMode): ReportCategory
  {
    match mode
    case IntraContributor => InterIgnored
    case InterContributor => IntraIgnored
    case All => AllIgnored
  }

  function IgnoredRow(mode: TransfersMode, rule: Rule): Row
  {
    Report.ReportRow(IgnoredCategory(mode), "transfer between stops " + rule.from_stop_id + " and " + rule.to_stop_id
                                            + " is ignored")
  }

  function AlreadyDeclaredRow(rule: Rule): Row
  {
    Report.ReportRow(AlreadyDeclared, "transfer between stops " + rule.from_stop_id + " and " + rule.to_stop_id
                                      + " is already declared")
  }

  function MissingPointRow(id: string): Row
  {
    Report.ReportRow(OnNonExistentStop, "manual transfer references an non-existent stop point (" + id + ")")
  }

  function MissingPointsRow(from: string, to: string): Row
  {
    Report.ReportRow(OnNonExistentStop, "manual transfer references non-existent stop points (" + from + " and " + to + ")")
  }

  type RuleMap = map<TM.Key, Rule>

  /** One rule of `read_rules` checked and inserted: the rule map afterwards and the warnings
    * filed. */
  function InsertRule(rules: RuleMap, rule: Rule, sps: Points, mode: TransfersMode): (RuleMap, seq<Row>)
  {
    match (GetIdx(sps, TM.StopPointKey, rule.from_stop_id), GetIdx(sps, TM.StopPointKey, rule.to_stop_id))
    case (Some(from), Some(to)) => InsertResolved(rules, rule, sps, from, to, mode)
    case (Some(_), None) => (rules, [MissingPointRow(rule.to_stop_id)])
    case (None, Some(_)) => (rules, [MissingPointRow(rule.from_stop_id)])
    case (None, None) => (rules, [MissingPointsRow(rule.from_stop_id, rule.to_stop_id)])
  }

  /** A rule whose stops resolve to `from` and `to`: inserted when they need a transfer and
    * the pair is new, otherwise reported. */
  function InsertResolved(rules: RuleMap, rule: Rule, sps: Points, from: nat, to: nat, mode: TransfersMode)
    : (RuleMap, seq<Row>)
    requires from < |sps| && to < |sps|
  {
    var (need, ws) := NeedTransfer(sps, from, to, mode);
    if need then
      if KeyOf(rule) in rules then (rules, ws + [AlreadyDeclaredRow(rule)])
      else (rules[KeyOf(rule) := rule], ws)
    else (rules, ws + [IgnoredRow(mode, rule)])
  }

  /** The rule names two stop points of the dataset that need a transfer. */
  predicate Accepted(sps: Points, mode: TransfersMode, rule: Rule)
  {
    match (GetIdx(sps, TM.StopPointKey, rule.from_stop_id), GetIdx(sps, TM.StopPointKey, rule.to_stop_id))
    case (Some(from), Some(to)) => NeedTransfer(sps, from, to, mode).0
    case _ => false
  }

  /** The category of the last warning about a rule that is dropped. */
  function DropCategory(sps: Points, mode: TransfersMode, rule: Rule): ReportCategory
  {
    if rule.from_stop_id in IdSet(sps, TM.StopPointKey) && rule.to_stop_id in IdSet(sps, TM.StopPointKey)
    then IgnoredCategory(mode)
    else OnNonExistentStop
  }

  /** An accepted rule is inserted when its pair has no rule yet, and otherwise leaves the
    * map as it is and is reported as AlreadyDeclared. */
  lemma InsertRuleAccepted(rules: RuleMap, rule: Rule, sps: Points, mode: TransfersMode)
    requires Accepted(sps, mode, rule)
    ensures KeyOf(rule) !in rules ==> InsertRule(rules, rule, sps, mode) == (rules[KeyOf(rule) := rule], [])
    ensures KeyOf(rule) in rules ==> InsertRule(rules, rule, sps, mode) == (rules, [AlreadyDeclaredRow(rule)])
  {
    var from := GetIdx(sps, TM.StopPointKey, rule.from_stop_id).value;
    var to := GetIdx(sps, TM.StopPointKey, rule.to_stop_id).value;
    assert NeedTransfer(sps, from, to, mode) == (true, []);
    assert [] + [AlreadyDeclaredRow(rule)] == [AlreadyDeclaredRow(rule)];
  }

  /** Any other rule leaves the map unchanged and is reported, last with the mode's Ignored
    * category when it needs no transfer and as OnNonExistentStop when a stop is missing. */
  lemma InsertRuleDropped(rules: RuleMap, rule: Rule, sps: Points, mode: TransfersMode)
    requires !Accepted(sps, mode, rule)
    ensures InsertRule(rules, rule, sps, mode).0 == rules
    ensures var ws := InsertRule(rules, rule, sps, mode).1;
      ws != [] && ws[|ws| - 1].category == DropCategory(sps, mode, rule)
  {
  }

  /** The map after one rule: it gains the rule iff the rule is accepted and its pair is new. */
  lemma InsertRuleMap(rules: RuleMap, rule: Rule, sps: Points, mode: TransfersMode)
    ensures InsertRule(rules, rule, sps, mode).0
            == if Accepted(sps, mode, rule) && KeyOf(rule) !in rules then rules[KeyOf(rule) := rule] else rules
  {
    if Accepted(sps, mode, rule) {
      InsertRuleAccepted(rules, rule, sps, mode);
    } else {
      InsertRuleDropped(rules, rule, sps, mode);
    }
  }

  /** The map the rules leave: each accepted rule written under its pair unless the pair
    * already has one. */
  function Accepting(rules: RuleMap, rs: seq<Rule>, sps: Points, mode: TransfersMode): RuleMap
    decreases |rs|
  {
    if rs == [] then rules
    else
      var m := Accepting(rules, rs[..|rs| - 1], sps, mode);
      var last := rs[|rs| - 1];
      if Accepted(sps, mode, last) && KeyOf(last) !in m then m[KeyOf(last) := last] else m
  }

  /** Some accepted rule names the pair `k`. */
  predicate AcceptedKey(sps: Points, mode: TransfersMode, rs: seq<Rule>, k: TM.Key)
  {
    exists i :: 0 <= i < |rs| && Accepted(sps, mode, rs[i]) && KeyOf(rs[i]) == k
  }

  /** A pair is named by an accepted rule of `rs` iff by one before the last or by the last. */
  lemma AcceptedKeySnoc(sps: Points, mode: TransfersMode, rs: seq<Rule>, k: TM.Key)
    requires rs != []
    ensures AcceptedKey(sps, mode, rs, k) <==>
      AcceptedKey(sps, mode, rs[..|rs| - 1], k) || (Accepted(sps, mode, rs[|rs| - 1]) && KeyOf(rs[|rs| - 1]) == k)
  {
    var front := rs[..|rs| - 1];
    if AcceptedKey(sps, mode, rs, k) {
      var i :| 0 <= i < |rs| && Accepted(sps, mode, rs[i]) && KeyOf(rs[i]) == k;
      if i < |front| {
        assert front[i] == rs[i];
      }
    }
    if AcceptedKey(sps, mode, front, k) {
      var i :| 0 <= i < |front| && Accepted(sps, mode, front[i]) && KeyOf(front[i]) == k;
      assert front[i] == rs[i];
    }
  }

  /** The pairs of the map afterwards are those before and those of the accepted rules. */
  lemma {:induction false} AcceptingDomain(rules: RuleMap, rs: seq<Rule>, sps: Points, mode: TransfersMode)
    ensures forall k :: k in Accepting(rules, rs, sps, mode) <==> k in rules || AcceptedKey(sps, mode, rs, k)
    decreases |rs|
  {
    if rs != [] {
      AcceptingDomain(rules, rs[..|rs| - 1], sps, mode);
      forall k ensures k in Accepting(rules, rs, sps, mode) <==> k in rules || AcceptedKey(sps, mode, rs, k) {
        AcceptedKeySnoc(sps, mode, rs, k);
      }
    }
  }

  /** A rule already in the map is never replaced. */
  lemma {:induction false} AcceptingKeeps(rules: RuleMap, rs: seq<Rule>, sps: Points, mode: TransfersMode, k: TM.Key)
    requires k in rules
    ensures k in Accepting(rules, rs, sps, mode) && Accepting(rules, rs, sps, mode)[k] == rules[k]
    decreases |rs|
  {
    if rs != [] {
      AcceptingKeeps(rules, rs[..|rs| - 1], sps, mode, k);
    }
  }

  /** The rule is accepted and no earlier accepted rule names its pair. */
  predicate FirstAccepted(sps: Points, mode: TransfersMode, rs: seq<Rule>, i: int)
    requires 0 <= i < |rs|
  {
    Accepted(sps, mode, rs[i])
    && forall j :: 0 <= j < i && Accepted(sps, mode, rs[j]) ==> KeyOf(rs[j]) != KeyOf(rs[i])
  }

  /** For a pair without a rule before, the first accepted rule wins. */
  lemma {:induction false} FirstAcceptedWins(rules: RuleMap, rs: seq<Rule>, sps: Points, mode: TransfersMode, i: nat)
    requires i < |rs| && FirstAccepted(sps, mode, rs, i) && KeyOf(rs[i]) !in rules
    ensures KeyOf(rs[i]) in Accepting(rules, rs, sps, mode)
    ensures Accepting(rules, rs, sps, mode)[KeyOf(rs[i])] == rs[i]
    decreases |rs|
  {
    var front := rs[..|rs| - 1];
    if i < |front| {
      assert FirstAccepted(sps, mode, front, i) by {
        assert forall j :: 0 <= j <= i ==> front[j] == rs[j];
      }
      FirstAcceptedWins(rules, front, sps, mode, i);
    } else {
      AcceptingDomain(rules, front, sps, mode);
      assert !AcceptedKey(sps, mode, front, KeyOf(rs[i])) by {
        assert forall j :: 0 <= j < |front| ==> front[j] == rs[j];
      }
    }
  }

  /** Every rule of the map sits under its own pair. */
  predicate RulesKeyed(rules: RuleMap)
  {
    forall k :: k in rules ==> KeyOf(rules[k]) == k
  }

  /** Every rule of the map names two stop points of the dataset. */
  predicate RulesResolve(sps: Points, rules: RuleMap)
  {
    forall k :: k in rules ==> rules[k].from_stop_id in IdSet(sps, TM.StopPointKey)
                               && rules[k].to_stop_id in IdSet(sps, TM.StopPointKey)
  }

  lemma {:induction false} AcceptingKeyed(rules: RuleMap, rs: seq<Rule>, sps: Points, mode: TransfersMode)
    requires RulesKeyed(rules) && RulesResolve(sps, rules)
    ensures RulesKeyed(Accepting(rules, rs, sps, mode)) && RulesResolve(sps, Accepting(rules, rs, sps, mode))
    decreases |rs|
  {
    if rs != [] {
      AcceptingKeyed(rules, rs[..|rs| - 1], sps, mode);
    }
  }

  // ----- reading the rule files -----

  /** A rule file as read: each row a rule, or `None` for a row that does not deserialize. */
  datatype RuleFile = RuleFile(name: string, rows: seq<Option<Rule>>)

  type TaggedRow = (string, Option<Rule>)

  function Tagged(f: RuleFile): (r: seq<TaggedRow>)
    ensures |r| == |f.rows| && forall k :: 0 <= k < |r| ==> r[k] == (f.name, f.rows[k])
  {
    seq(|f.rows|, k requires 0 <= k < |f.rows| => (f.name, f.rows[k]))
  }

  function Rows(files: seq<RuleFile>): seq<TaggedRow>
    decreases |files|
  {
    if files == [] then [] else Rows(files[..|files| - 1]) + Tagged(files[|files| - 1])
  }

  function ReadError(name: string): string
  {
    "Error reading \"" + name + "\""
  }

  /** The state of the reading loop: the rules so far, or the error that stopped it, and the
    * warnings filed until then. */
  type ReadState = (Result<RuleMap, string>, seq<Row>)

  /** One row read into `rules`: a row that does not deserialize is the error; a rule is
    * checked and inserted. */
  function RowStep(rules: RuleMap, row: TaggedRow, sps: Points, mode: TransfersMode): ReadState
  {
    if row.1.None? then (Err(ReadError(row.0)), [])
    else
      var (m, ws) := InsertRule(rules, row.1.value, sps, mode);
      (Ok(m), ws)
  }

  /** One row read after the state `p`: an error stops the reading. */
  function ReadRow(p: ReadState, row: TaggedRow, sps: Points, mode: TransfersMode): ReadState
  {
    if p.0.Err? then p
    else
      var q := RowStep(p.0.value, row, sps, mode);
      (q.0, p.1 + q.1)
  }

  /** `read_rules` over the rows of all files in turn. */
  function ReadRules(rows: seq<TaggedRow>, sps: Points, mode: TransfersMode): ReadState
    decreases |rows|
  {
    if rows == [] then (Ok(map[]), [])
    else ReadRow(ReadRules(rows[..|rows| - 1], sps, mode), rows[|rows| - 1], sps, mode)
  }

  lemma ReadRulesSnoc(rows: seq<TaggedRow>, row: TaggedRow, sps: Points, mode: TransfersMode)
    ensures ReadRules(rows + [row], sps, mode) == ReadRow(ReadRules(rows, sps, mode), row, sps, mode)
  {
    assert (rows + [row])[..|rows|] == rows;
  }

  /** Reading fails iff some row does not deserialize. */
  lemma {:induction false} ReadRulesFails(rows: seq<TaggedRow>, sps: Points, mode: TransfersMode)
    ensures ReadRules(rows, sps, mode).0.Err? <==> exists k :: 0 <= k < |rows| && rows[k].1.None?
    decreases |rows|
  {
    if rows != [] {
      var front := rows[..|rows| - 1];
      ReadRulesFails(front, sps, mode);
      assert forall k :: 0 <= k < |front| ==> front[k] == rows[k];
    }
  }

  /** A failed reading carries the error of the first row that does not deserialize. */
  lemma {:induction false} ReadRulesFirstError(rows: seq<TaggedRow>, sps: Points, mode: TransfersMode, k: nat)
    requires k < |rows| && rows[k].1.None? && forall j :: 0 <= j < k ==> rows[j].1.Some?
    ensures ReadRules(rows, sps, mode).0 == Err(ReadError(rows[k].0))
    decreases |rows|
  {
    var front := rows[..|rows| - 1];
    if k < |front| {
      assert front[k] == rows[k];
      ReadRulesFirstError(front, sps, mode, k);
    } else {
      assert forall j :: 0 <= j < |front| ==> front[j].1.Some? by {
        assert forall j :: 0 <= j < |front| ==> front[j] == rows[j];
      }
      ReadRulesFails(front, sps, mode);
      var p := ReadRules(front, sps, mode);
      assert p.0.Ok?;
      assert ReadRules(rows, sps, mode) == ReadRow(p, rows[k], sps, mode);
    }
  }

  /** The rules of the rows, in order, when every row deserializes. */
  function RulesOf(rows: seq<TaggedRow>): (rs: seq<Rule>)
    requires forall k :: 0 <= k < |rows| ==> rows[k].1.Some?
    ensures |rs| == |rows| && forall k :: 0 <= k < |rows| ==> rs[k] == rows[k].1.value
  {
    seq(|rows|, k requires 0 <= k < |rows| => rows[k].1.value)
  }

  /** When every row deserializes, the rules read are those the rules accept in order, from
    * an empty map. */
  lemma {:induction false} ReadRulesAccepting(rows: seq<TaggedRow>, sps: Points, mode: TransfersMode)
    requires forall k :: 0 <= k < |rows| ==> rows[k].1.Some?
    ensures ReadRules(rows, sps, mode).0 == Ok(Accepting(map[], RulesOf(rows), sps, mode))
    decreases |rows|
  {
    if rows != [] {
      var front := rows[..|rows| - 1];
      ReadRulesAccepting(front, sps, mode);
      assert RulesOf(rows)[..|rows| - 1] == RulesOf(front);
      InsertRuleMap(Accepting(map[], RulesOf(front), sps, mode), rows[|rows| - 1].1.value, sps, mode);
    }
  }

  /** The rules read are keyed by their pair and name stop points of the dataset. */
  lemma {:induction false} ReadRulesKeyed(rows: seq<TaggedRow>, sps: Points, mode: TransfersMode)
    ensures ReadRules(rows, sps, mode).0.Ok? ==>
      RulesKeyed(ReadRules(rows, sps, mode).0.value) && RulesResolve(sps, ReadRules(rows, sps, mode).0.value)
    decreases |rows|
  {
    if rows != [] {
      var p := ReadRules(rows[..|rows| - 1], sps, mode);
      ReadRulesKeyed(rows[..|rows| - 1], sps, mode);
      var row := rows[|rows| - 1];
      if p.0.Ok? && row.1.Some? {
        InsertRuleMap(p.0.value, row.1.value, sps, mode);
      }
    }
  }

  // ----- updating the transfers -----

  /** The rules read, in ascending order of their pairs. */
  function RuleSeq(rules: RuleMap): seq<Rule>
  {
    var keys := TM.SortedKeys(rules.Keys);
    seq(|keys|, i requires 0 <= i < |keys| => rules[keys[i]])
  }

  /** No two rules name the same pair. */
  predicate DistinctKeys(rules: seq<Rule>)
  {
    forall i, j :: 0 <= i < j < |rules| ==> KeyOf(rules[i]) != KeyOf(rules[j])
  }

  /** The pairs the rules name. */
  function RuleKeys(rules: seq<Rule>): (ks: set<TM.Key>)
    ensures forall k :: k in ks <==> exists i :: 0 <= i < |rules| && KeyOf(rules[i]) == k
  {
    set i | 0 <= i < |rules| :: KeyOf(rules[i])
  }

  /** The rule sequence of a keyed map names no pair twice, and each of its rules is the
    * map's rule for its pair. */
  lemma RuleSeqDistinct(rules: RuleMap)
    requires RulesKeyed(rules)
    ensures DistinctKeys(RuleSeq(rules))
    ensures forall i :: 0 <= i < |RuleSeq(rules)| ==> KeyOf(RuleSeq(rules)[i]) in rules
    ensures forall i :: 0 <= i < |RuleSeq(rules)| ==> rules[KeyOf(RuleSeq(rules)[i])] == RuleSeq(rules)[i]
  {
    var keys := TM.SortedKeys(rules.Keys);
    assert forall i :: 0 <= i < |keys| ==> KeyOf(RuleSeq(rules)[i]) == keys[i];
  }

  /** The rule sequence names exactly the map's pairs. */
  lemma RuleSeqKeys(rules: RuleMap)
    requires RulesKeyed(rules)
    ensures RuleKeys(RuleSeq(rules)) == rules.Keys
  {
    var keys := TM.SortedKeys(rules.Keys);
    var rs := RuleSeq(rules);
    RuleSeqDistinct(rules);
    forall k | k in rules.Keys
      ensures k in RuleKeys(rs)
    {
      var i := TM.IndexOf(keys, k);
      assert rs[i] == rules[k];
    }
  }

  /** The transfer for the pair of a rule with a transfer time `t`: the existing one with both
    * times set to `t`, or a new one whose real time adds the waiting time, without
    * equipment. */
  function Timed(tm: TM.TransferMap, r: Rule, waiting: nat): TM.Transfer
    requires r.transfer_time.Some?
  {
    var k := KeyOf(r);
    if k in tm then tm[k].(min_transfer_time := r.transfer_time, real_min_transfer_time := r.transfer_time)
    else TM.Transfer(r.from_stop_id, r.to_stop_id, r.transfer_time, Some(r.transfer_time.value + waiting), None)
  }

  /** The timed transfer sits under the rule's pair and its minimum time is the rule's
    * transfer time. An existing transfer gets that same real time and keeps its equipment; a
    * new one adds the waiting time and has no equipment. */
  lemma TimedSpec(tm: TM.TransferMap, r: Rule, waiting: nat)
    requires TM.Keyed(tm) && r.transfer_time.Some?
    ensures var t := Timed(tm, r, waiting);
      TM.KeyOf(t) == KeyOf(r) && t.min_transfer_time == r.transfer_time
      && (KeyOf(r) in tm ==> t.real_min_transfer_time == r.transfer_time && t.equipment_id == tm[KeyOf(r)].equipment_id)
      && (KeyOf(r) !in tm ==> t.real_min_transfer_time == Some(r.transfer_time.value + waiting) && t.equipment_id == None)
  {
  }

  /** One rule of `add_missing_transfers`: a rule with a transfer time sets the transfer of
    * its pair. */
  function AddMissingOne(tm: TM.TransferMap, r: Rule, waiting: nat): TM.TransferMap
  {
    if r.transfer_time.None? then tm else tm[KeyOf(r) := Timed(tm, r, waiting)]
  }

  function AddMissing(tm: TM.TransferMap, rules: seq<Rule>, waiting: nat): TM.TransferMap
    decreases |rules|
  {
    if rules == [] then tm
    else AddMissingOne(AddMissing(tm, rules[..|rules| - 1], waiting), rules[|rules| - 1], waiting)
  }

  /** Some rule with a transfer time names the pair `k`. */
  predicate TimedKey(rules: seq<Rule>, k: TM.Key)
  {
    exists i :: 0 <= i < |rules| && rules[i].transfer_time.Some? && KeyOf(rules[i]) == k
  }

  /** With distinct pairs, the transfer of a rule with a transfer time is the one that rule
    * makes from the map before any rule: the order of the rules does not matter. */
  lemma {:induction false} AddMissingAt(tm: TM.TransferMap, rules: seq<Rule>, waiting: nat, i: nat)
    requires DistinctKeys(rules) && i < |rules| && rules[i].transfer_time.Some?
    ensures KeyOf(rules[i]) in AddMissing(tm, rules, waiting)
    ensures AddMissing(tm, rules, waiting)[KeyOf(rules[i])] == Timed(tm, rules[i], waiting)
    decreases |rules|
  {
    var front := rules[..|rules| - 1];
    if i < |front| {
      assert DistinctKeys(front) by {
        assert forall j :: 0 <= j < |front| ==> front[j] == rules[j];
      }
      AddMissingAt(tm, front, waiting, i);
      assert KeyOf(rules[i]) != KeyOf(rules[|front|]);
    } else {
      AddMissingElsewhere(tm, front, waiting, KeyOf(rules[i]));
    }
  }

  /** A pair no rule with a transfer time names keeps its transfer, or its absence. */
  lemma {:induction false} AddMissingElsewhere(tm: TM.TransferMap, rules: seq<Rule>, waiting: nat, k: TM.Key)
    requires DistinctKeys(rules) && !TimedKey(rules, k)
    ensures k in AddMissing(tm, rules, waiting) <==> k in tm
    ensures k in tm ==> AddMissing(tm, rules, waiting)[k] == tm[k]
    decreases |rules|
  {
    if rules != [] {
      var front := rules[..|rules| - 1];
      assert forall j :: 0 <= j < |front| ==> front[j] == rules[j];
      assert DistinctKeys(front);
      assert !TimedKey(front, k);
      AddMissingElsewhere(tm, front, waiting, k);
    }
  }

  lemma {:induction false} AddMissingKeyed(tm: TM.TransferMap, rules: seq<Rule>, waiting: nat)
    requires TM.Keyed(tm)
    ensures TM.Keyed(AddMissing(tm, rules, waiting))
    decreases |rules|
  {
    if rules != [] {
      AddMissingKeyed(tm, rules[..|rules| - 1], waiting);
    }
  }

  /** `add_missing_transfers`. */
  method AddMissingTransfers(tm: TM.TransferMap, rules: seq<Rule>, waiting: nat) returns (r: TM.TransferMap)
    ensures r == AddMissing(tm, rules, waiting)
  {
    r := tm;
    for i := 0 to |rules|
      invariant r == AddMissing(tm, rules[..i], waiting)
    {
      SeqFacts.PrefixStep(rules, i);
      var rule := rules[i];
      if rule.transfer_time.Some? {
        var k := (rule.from_stop_id, rule.to_stop_id);
        if k in r {
          r := r[k := r[k].(min_transfer_time := rule.transfer_time, real_min_transfer_time := rule.transfer_time)];
        } else {
          var realTime := rule.transfer_time.value + waiting;
          r := r[k := TM.Transfer(rule.from_stop_id, rule.to_stop_id, rule.transfer_time, Some(realTime), None)];
        }
      }
    }
    SeqFacts.WholePrefix(rules);
  }

  /** The transfers after the rules: unchanged without rules; otherwise the named ones removed
    * and those with a transfer time added back. */
  function Updated(tm: TM.TransferMap, rules: seq<Rule>, waiting: nat): TM.TransferMap
  {
    if rules == [] then tm else AddMissing(TM.RemoveUnwanted(tm, RuleKeys(rules)), rules, waiting)
  }

  /** After non-empty rules, the pair of a rule has a transfer iff the rule carries a
    * transfer time, and then it is the transfer the rule makes from a map without it: the
    * existing-transfer branch of `add_missing_transfers` is never taken. */
  lemma UpdatedAt(tm: TM.TransferMap, rules: seq<Rule>, waiting: nat, i: nat)
    requires DistinctKeys(rules) && i < |rules|
    ensures KeyOf(rules[i]) in Updated(tm, rules, waiting) <==> rules[i].transfer_time.Some?
    ensures rules[i].transfer_time.Some? ==>
      Updated(tm, rules, waiting)[KeyOf(rules[i])] == Timed(map[], rules[i], waiting)
  {
    var removed := TM.RemoveUnwanted(tm, RuleKeys(rules));
    assert KeyOf(rules[i]) !in removed;
    if rules[i].transfer_time.Some? {
      AddMissingAt(removed, rules, waiting, i);
    } else {
      assert !TimedKey(rules, KeyOf(rules[i]));
      AddMissingElsewhere(removed, rules, waiting, KeyOf(rules[i]));
    }
  }

  /** A pair no rule names keeps its transfer, or its absence. */
  lemma UpdatedElsewhere(tm: TM.TransferMap, rules: seq<Rule>, waiting: nat, k: TM.Key)
    requires DistinctKeys(rules) && k !in RuleKeys(rules)
    ensures k in Updated(tm, rules, waiting) <==> k in tm
    ensures k in tm ==> Updated(tm, rules, waiting)[k] == tm[k]
  {
    if rules != [] {
      AddMissingElsewhere(TM.RemoveUnwanted(tm, RuleKeys(rules)), rules, waiting, k);
    }
  }

  // ----- apply_rules -----

  /** The needed transfers of the dataset collected by pair and updated by the rules read. */
  function Output(sps: Points, transfers: seq<TM.Transfer>, mode: TransfersMode, rules: RuleMap, waiting: nat)
    : TM.TransferMap
  {
    Updated(FilteredMap(sps, transfers, mode), RuleSeq(rules), waiting)
  }

  /** `apply_rules`: the needed transfers of the dataset collected by pair, updated by the
    * rules read when there are any, and sorted by pair; or the error that stopped the
    * reading. The warnings are the report's. */
  function ApplyRulesSpec(sps: Points, transfers: seq<TM.Transfer>, waiting: nat, mode: TransfersMode,
                          files: seq<RuleFile>): (Result<seq<TM.Transfer>, string>, seq<Row>)
    requires TM.AllResolvable(sps, transfers)
  {
    var (rr, ws) := ReadRules(Rows(files), sps, mode);
    match rr
    case Err(e) => (Err(e), ws)
    case Ok(rules) => (Ok(TM.Sorted(Output(sps, transfers, mode, rules, waiting))), ws)
  }

  lemma OutputKeyed(sps: Points, transfers: seq<TM.Transfer>, mode: TransfersMode, rules: RuleMap, waiting: nat)
    ensures TM.Keyed(Output(sps, transfers, mode, rules, waiting))
  {
    var tm := FilteredMap(sps, transfers, mode);
    var rs := RuleSeq(rules);
    if rs != [] {
      TM.RemoveUnwantedKeyed(tm, RuleKeys(rs));
      AddMissingKeyed(TM.RemoveUnwanted(tm, RuleKeys(rs)), rs, waiting);
    }
  }

  /** A successful run outputs each resulting transfer once, sorted by pair of stops, and
    * every rule read names stop points of the dataset. */
  lemma ApplyRulesSorted(sps: Points, transfers: seq<TM.Transfer>, waiting: nat, mode: TransfersMode,
                         files: seq<RuleFile>)
    requires TM.AllResolvable(sps, transfers) && ReadRules(Rows(files), sps, mode).0.Ok?
    ensures var out := ApplyRulesSpec(sps, transfers, waiting, mode, files).0.value;
      forall i, j :: 0 <= i < j < |out| ==> Ordering.PairBelow(TM.KeyOf(out[i]), TM.KeyOf(out[j]))
    ensures RulesResolve(sps, ReadRules(Rows(files), sps, mode).0.value)
  {
    var rules := ReadRules(Rows(files), sps, mode).0.value;
    ReadRulesKeyed(Rows(files), sps, mode);
    OutputKeyed(sps, transfers, mode, rules, waiting);
    TM.SortedAscending(Output(sps, transfers, mode, rules, waiting));
  }

  /** The pair of a rule of a keyed map has an output transfer iff the rule carries a
    * transfer time, and then it is a new transfer with the rule's times. */
  lemma OutputRule(sps: Points, transfers: seq<TM.Transfer>, mode: TransfersMode, rules: RuleMap, waiting: nat,
                   k: TM.Key)
    requires RulesKeyed(rules) && k in rules
    ensures k in Output(sps, transfers, mode, rules, waiting) <==> rules[k].transfer_time.Some?
    ensures rules[k].transfer_time.Some? ==> Output(sps, transfers, mode, rules, waiting)[k] == Timed(map[], rules[k], waiting)
  {
    var rs := RuleSeq(rules);
    RuleSeqDistinct(rules);
    var i := TM.IndexOf(TM.SortedKeys(rules.Keys), k);
    assert rs[i] == rules[k];
    UpdatedAt(FilteredMap(sps, transfers, mode), rs, waiting, i);
  }

  /** After a successful run, the pair of a rule read has a transfer iff the rule carries a
    * transfer time, and then it is a new transfer whose real time adds the waiting time. */
  lemma ApplyRulesRule(sps: Points, transfers: seq<TM.Transfer>, waiting: nat, mode: TransfersMode,
                       files: seq<RuleFile>, k: TM.Key)
    requires TM.AllResolvable(sps, transfers) && ReadRules(Rows(files), sps, mode).0.Ok?
    requires k in ReadRules(Rows(files), sps, mode).0.value
    ensures var out := ApplyRulesSpec(sps, transfers, waiting, mode, files).0.value;
      var rule := ReadRules(Rows(files), sps, mode).0.value[k];
      ((exists t :: t in out && TM.KeyOf(t) == k) <==> rule.transfer_time.Some?)
      && (rule.transfer_time.Some? ==> Timed(map[], rule, waiting) in out)
  {
    var rules := ReadRules(Rows(files), sps, mode).0.value;
    ReadRulesKeyed(Rows(files), sps, mode);
    OutputRule(sps, transfers, mode, rules, waiting, k);
    OutputKeyed(sps, transfers, mode, rules, waiting);
    TM.SortedHas(Output(sps, transfers, mode, rules, waiting), k);
  }

  /** After a successful run, the last needed transfer of the dataset for a pair no rule
    * names is output unchanged. */
  lemma ApplyRulesKeepsNeeded(sps: Points, transfers: seq<TM.Transfer>, waiting: nat, mode: TransfersMode,
                              files: seq<RuleFile>, i: nat)
    requires TM.AllResolvable(sps, transfers) && ReadRules(Rows(files), sps, mode).0.Ok?
    requires i < |transfers| && LastNeeded(sps, mode, transfers, i)
    requires TM.KeyOf(transfers[i]) !in ReadRules(Rows(files), sps, mode).0.value
    ensures transfers[i] in ApplyRulesSpec(sps, transfers, waiting, mode, files).0.value
  {
    var rules := ReadRules(Rows(files), sps, mode).0.value;
    ReadRulesKeyed(Rows(files), sps, mode);
    var rs := RuleSeq(rules);
    RuleSeqDistinct(rules);
    RuleSeqKeys(rules);
    var k := TM.KeyOf(transfers[i]);
    FilteredMapLastWins(sps, transfers, mode, i);
    UpdatedElsewhere(FilteredMap(sps, transfers, mode), rs, waiting, k);
    OutputKeyed(sps, transfers, mode, rules, waiting);
    TM.SortedHas(Output(sps, transfers, mode, rules, waiting), k);
  }

  /** Every transfer of the updated map is a rule's new transfer or a needed transfer of the
    * dataset. */
  lemma OutputOrigin(sps: Points, transfers: seq<TM.Transfer>, mode: TransfersMode, rules: RuleMap, waiting: nat,
                     k: TM.Key)
    requires RulesKeyed(rules) && k in Output(sps, transfers, mode, rules, waiting)
    ensures var t := Output(sps, transfers, mode, rules, waiting)[k];
      (k in rules && rules[k].transfer_time.Some? && t == Timed(map[], rules[k], waiting))
      || (k !in rules && NeededIn(sps, mode, transfers, t))
  {
    var rs := RuleSeq(rules);
    RuleSeqDistinct(rules);
    RuleSeqKeys(rules);
    if k in rules {
      OutputRule(sps, transfers, mode, rules, waiting, k);
    } else {
      FilteredMapValues(sps, transfers, mode);
      UpdatedElsewhere(FilteredMap(sps, transfers, mode), rs, waiting, k);
    }
  }

  /** After a successful run, every transfer output is the new transfer of a rule read, or a
    * transfer of the dataset whose pair needs one in the mode and that no rule names. */
  lemma ApplyRulesOrigin(sps: Points, transfers: seq<TM.Transfer>, waiting: nat, mode: TransfersMode,
                         files: seq<RuleFile>, t: TM.Transfer)
    requires TM.AllResolvable(sps, transfers) && ReadRules(Rows(files), sps, mode).0.Ok?
    requires t in ApplyRulesSpec(sps, transfers, waiting, mode, files).0.value
    ensures var rules := ReadRules(Rows(files), sps, mode).0.value;
      (TM.KeyOf(t) in rules && rules[TM.KeyOf(t)].transfer_time.Some? && t == Timed(map[], rules[TM.KeyOf(t)], waiting))
      || (TM.KeyOf(t) !in rules && NeededIn(sps, mode, transfers, t))
  {
    var rules := ReadRules(Rows(files), sps, mode).0.value;
    ReadRulesKeyed(Rows(files), sps, mode);
    var out := Output(sps, transfers, mode, rules, waiting);
    OutputKeyed(sps, transfers, mode, rules, waiting);
    TM.SortedSpec(out);
    var k :| k in out && out[k] == t;
    OutputOrigin(sps, transfers, mode, rules, waiting, k);
  }

  // ----- the imperative reading loop -----

  /** `stop_points_need_transfer` given the report: the warnings about stops without
    * contributors are filed in it. */
  method NeedTransferReported(sps: Points, from: nat, to: nat, mode: TransfersMode,
                              report: Report.Report<ReportCategory>) returns (need: bool)
    requires from < |sps| && to < |sps|
    modifies report
    ensures var (n, ws) := NeedTransfer(sps, from, to, mode);
      need == n && report.warnings == Report.RecordAll(old(report.warnings), ws)
      && report.errors == old(report.errors)
  {
    if mode == All {
      return true;
    }
    var cf := sps[from].contributors;
    var ct := sps[to].contributors;
    if cf == {} {
      var row := UnreferencedRow(sps[from].id);
      report.AddWarning(row.message, row.category);
      return false;
    }
    if ct == {} {
      var row := UnreferencedRow(sps[to].id);
      report.AddWarning(row.message, row.category);
      return false;
    }
    need := if mode == IntraContributor then cf == ct else cf != ct;
  }

  /** A rule whose stops resolve: the transfer need is checked with the report, then the rule
    * is inserted, reported as already declared, or reported as ignored. */
  method CheckResolved(rules: RuleMap, rule: Rule, sps: Points, from: nat, to: nat, mode: TransfersMode,
                       report: Report.Report<ReportCategory>) returns (r: RuleMap)
    requires from < |sps| && to < |sps|
    modifies report
    ensures var ins := InsertResolved(rules, rule, sps, from, to, mode);
      r == ins.0 && report.warnings == Report.RecordAll(old(report.warnings), ins.1)
      && report.errors == old(report.errors)
  {
    ghost var ws := NeedTransfer(sps, from, to, mode).1;
    var need := NeedTransferReported(sps, from, to, mode, report);
    r := rules;
    var k := (rule.from_stop_id, rule.to_stop_id);
    var last: Row;
    if need {
      if k in rules {
        last := AlreadyDeclaredRow(rule);
        report.AddWarning(last.message, last.category);
        Report.RecordAllConcat(old(report.warnings), ws, [last]);
      } else {
        r := rules[k := rule];
      }
    } else {
      last := IgnoredRow(mode, rule);
      report.AddWarning(last.message, last.category);
      Report.RecordAllConcat(old(report.warnings), ws, [last]);
    }
  }

  /** The body of the `read_rules` loop for one rule: resolve both stops, then check and
    * insert the rule, or report the missing stops. */
  method CheckAndInsertRule(rules: RuleMap, rule: Rule, sps: Points, mode: TransfersMode,
                            report: Report.Report<ReportCategory>) returns (r: RuleMap)
    modifies report
    ensures var ins := InsertRule(rules, rule, sps, mode);
      r == ins.0 && report.warnings == Report.RecordAll(old(report.warnings), ins.1)
      && report.errors == old(report.errors)
  {
    var from := GetIdx(sps, TM.StopPointKey, rule.from_stop_id);
    var to := GetIdx(sps, TM.StopPointKey, rule.to_stop_id);
    r := rules;
    if from.Some? && to.Some? {
      r := CheckResolved(rules, rule, sps, from.value, to.value, mode, report);
    } else if from.Some? {
      var row := MissingPointRow(rule.to_stop_id);
      report.AddWarning(row.message, row.category);
    } else if to.Some? {
      var row := MissingPointRow(rule.from_stop_id);
      report.AddWarning(row.message, row.category);
    } else {
      var row := MissingPointsRow(rule.from_stop_id, rule.to_stop_id);
      report.AddWarning(row.message, row.category);
    }
  }

  /** Once reading has failed, later rows change nothing. */
  lemma {:induction false} ReadRulesStopped(rows: seq<TaggedRow>, more: seq<TaggedRow>, sps: Points, mode: TransfersMode)
    requires ReadRules(rows, sps, mode).0.Err?
    ensures ReadRules(rows + more, sps, mode) == ReadRules(rows, sps, mode)
    decreases |more|
  {
    if more == [] {
      assert rows + more == rows;
    } else {
      var front := more[..|more| - 1];
      ReadRulesStopped(rows, front, sps, mode);
      assert rows + more == (rows + front) + [more[|more| - 1]];
      ReadRulesSnoc(rows + front, more[|more| - 1], sps, mode);
    }
  }

  /** Once reading has failed within `rows`, the rest of `rows` changes nothing. */
  lemma ReadRulesStoppedAt(before: seq<TaggedRow>, rows: seq<TaggedRow>, n: nat, sps: Points, mode: TransfersMode)
    requires n <= |rows| && ReadRules(before + rows[..n], sps, mode).0.Err?
    ensures ReadRules(before + rows, sps, mode) == ReadRules(before + rows[..n], sps, mode)
  {
    assert before + rows == (before + rows[..n]) + rows[n..];
    ReadRulesStopped(before + rows[..n], rows[n..], sps, mode);
  }

  lemma {:induction false} RowsAppend(a: seq<RuleFile>, b: seq<RuleFile>)
    ensures Rows(a + b) == Rows(a) + Rows(b)
    decreases |b|
  {
    if b == [] {
      assert a + b == a;
    } else {
      var front := b[..|b| - 1];
      RowsAppend(a, front);
      SeqFacts.AppendFront(a, b);
      SeqFacts.AppendAssoc(Rows(a), Rows(front), Tagged(b[|b| - 1]));
    }
  }

  lemma RowsSnoc(files: seq<RuleFile>, i: nat)
    requires i < |files|
    ensures Rows(files[..i + 1]) == Rows(files[..i]) + Tagged(files[i])
  {
    SeqFacts.PrefixStep(files, i);
  }

  /** Once reading has failed in the first `n` files, the later files change nothing. */
  lemma ReadFilesStopped(files: seq<RuleFile>, n: nat, sps: Points, mode: TransfersMode)
    requires n <= |files| && ReadRules(Rows(files[..n]), sps, mode).0.Err?
    ensures ReadRules(Rows(files), sps, mode) == ReadRules(Rows(files[..n]), sps, mode)
  {
    SeqFacts.SplitAt(files, n);
    RowsAppend(files[..n], files[n..]);
    ReadRulesStopped(Rows(files[..n]), Rows(files[n..]), sps, mode);
  }

  /** One row read after the rows `before`. */
  method ReadFileRow(row: TaggedRow, ghost before: seq<TaggedRow>, rules: RuleMap, sps: Points, mode: TransfersMode,
                     ghost ws: seq<Row>, ghost w0: seq<Row>, report: Report.Report<ReportCategory>)
    returns (r: Result<RuleMap, string>, ghost ws': seq<Row>)
    requires ReadRules(before, sps, mode) == (Ok(rules), ws)
    requires report.warnings == Report.RecordAll(w0, ws)
    modifies report
    ensures ReadRules(before + [row], sps, mode) == (r, ws')
    ensures report.warnings == Report.RecordAll(w0, ws') && report.errors == old(report.errors)
  {
    ReadRulesSnoc(before, row, sps, mode);
    if row.1.None? {
      assert ws + [] == ws;
      return Err(ReadError(row.0)), ws;
    }
    ghost var step := InsertRule(rules, row.1.value, sps, mode);
    var m := CheckAndInsertRule(rules, row.1.value, sps, mode, report);
    Report.RecordAllConcat(w0, ws, step.1);
    r, ws' := Ok(m), ws + step.1;
  }

  /** The rows of one rule file read in turn, after the rows `before`; the first row that
    * does not deserialize ends the reading. */
  method ReadRuleFile(f: RuleFile, ghost before: seq<TaggedRow>, rules: RuleMap, sps: Points, mode: TransfersMode,
                      ghost ws: seq<Row>, ghost w0: seq<Row>, report: Report.Report<ReportCategory>)
    returns (r: Result<RuleMap, string>, ghost ws': seq<Row>)
    requires ReadRules(before, sps, mode) == (Ok(rules), ws)
    requires report.warnings == Report.RecordAll(w0, ws)
    modifies report
    ensures ReadRules(before + Tagged(f), sps, mode) == (r, ws')
    ensures report.warnings == Report.RecordAll(w0, ws') && report.errors == old(report.errors)
  {
    var tagged := Tagged(f);
    r, ws' := Ok(rules), ws;
    ghost var prefix := before;
    assert before + tagged[..0] == before;
    for j := 0 to |f.rows|
      invariant prefix == before + tagged[..j]
      invariant r.Ok? && ReadRules(prefix, sps, mode) == (r, ws')
      invariant report.warnings == Report.RecordAll(w0, ws')
      invariant report.errors == old(report.errors)
    {
      r, ws' := ReadFileRow(tagged[j], prefix, r.value, sps, mode, ws', w0, report);
      prefix := prefix + [tagged[j]];
      SeqFacts.SnocSlice(before, tagged, j);
      if r.Err? {
        ReadRulesStoppedAt(before, tagged, j + 1, sps, mode);
        return;
      }
    }
    SeqFacts.WholePrefix(tagged);
  }

  /** One more rule file read after the files before `i`; when its reading fails, the later
    * files change nothing. */
  method ReadNextFile(files: seq<RuleFile>, i: nat, rules: RuleMap, sps: Points, mode: TransfersMode,
                      ghost ws: seq<Row>, ghost w0: seq<Row>, report: Report.Report<ReportCategory>)
    returns (r: Result<RuleMap, string>, ghost ws': seq<Row>)
    requires i < |files| && ReadRules(Rows(files[..i]), sps, mode) == (Ok(rules), ws)
    requires report.warnings == Report.RecordAll(w0, ws)
    modifies report
    ensures r.Ok? ==> ReadRules(Rows(files[..i + 1]), sps, mode) == (r, ws')
    ensures r.Err? ==> ReadRules(Rows(files), sps, mode) == (r, ws')
    ensures report.warnings == Report.RecordAll(w0, ws') && report.errors == old(report.errors)
  {
    RowsSnoc(files, i);
    r, ws' := ReadRuleFile(files[i], Rows(files[..i]), rules, sps, mode, ws, w0, report);
    if r.Err? {
      ReadFilesStopped(files, i + 1, sps, mode);
    }
  }

  /** `read_rules`: the files in turn; the first unreadable row ends the reading with its
    * error. */
  method ReadAllRules(files: seq<RuleFile>, sps: Points, mode: TransfersMode, report: Report.Report<ReportCategory>)
    returns (r: Result<RuleMap, string>)
    modifies report
    ensures var rr := ReadRules(Rows(files), sps, mode);
      r == rr.0 && report.warnings == Report.RecordAll(old(report.warnings), rr.1)
      && report.errors == old(report.errors)
  {
    r := Ok(map[]);
    ghost var ws: seq<Row> := [];
    for i := 0 to |files|
      invariant r.Ok? && ReadRules(Rows(files[..i]), sps, mode) == (r, ws)
      invariant report.warnings == Report.RecordAll(old(report.warnings), ws)
      invariant report.errors == old(report.errors)
    {
      r, ws := ReadNextFile(files, i, r.value, sps, mode, ws, old(report.warnings), report);
      if r.Err? {
        return;
      }
    }
    SeqFacts.WholePrefix(files);
  }

  /** `apply_rules` with a fresh report: the needed transfers collected, the rules read, the
    * transfers updated and sorted. */
  method ApplyRules(sps: Points, transfers: seq<TM.Transfer>, waiting: nat, mode: TransfersMode, files: seq<RuleFile>)
    returns (r: Result<seq<TM.Transfer>, string>, report: Report.Report<ReportCategory>)
    requires TM.AllResolvable(sps, transfers)
    ensures var spec := ApplyRulesSpec(sps, transfers, waiting, mode, files);
      r == spec.0 && report.warnings == Report.RecordAll([], spec.1) && report.errors == []
  {
    var tm := FilteredMap(sps, transfers, mode);
    report := new Report.Report();
    var rr := ReadAllRules(files, sps, mode, report);
    if rr.Err? {
      return Err(rr.error), report;
    }
    var rs := RuleSeq(rr.value);
    if rs != [] {
      tm := TM.RemoveUnwanted(tm, RuleKeys(rs));
      tm := AddMissingTransfers(tm, rs, waiting);
    }
    r := Ok(TM.Sorted(tm));
  }
}
