/** Regrouping rules of apply-rules (apply-rules/src/apply_rules/object_rule.rs). A rule of
  * a category (networks, commercial modes or physical modes) names a target id through its
  * properties and a list of ids to absorb into it. The configuration is validated first;
  * reverse indices from the absorbed ids to the records referring to them are taken from
  * the model before anything changes; then each rule finds or creates its target, repoints
  * the referring records, and deletes the absorbed records if something was repointed. */
module ObjectRules {
  import opened Wrappers
  import opened IdCollection
  import Upsert
  import Report
  import opened RuleReport

  /** A JSON value of a rule's `properties`; the rules only ask whether it is a string. */
  datatype Json = JString(s: string) | JOther

  type Properties = map<string, Json>

  /** `ObjectProperties`: the properties of the target and the ids to absorb into it. */
  datatype ObjectProperties = ObjectProperties(properties: Properties, grouped_from: seq<string>)

  datatype Configuration = Configuration(
    networks_rules: Option<seq<ObjectProperties>>,
    commercial_modes_rules: Option<seq<ObjectProperties>>,
    physical_modes_rules: Option<seq<ObjectProperties>>)

  datatype Category = Networks | CommercialModes | PhysicalModes

  /** The property naming a rule's target in each category. */
  function IdKey(cat: Category): string
  {
    match cat
    case Networks => "network_id"
    case CommercialModes => "commercial_mode_id"
    case PhysicalModes => "physical_mode_id"
  }

  function KeyRequired(idKey: string): string
  {
    "Key \"" + idKey + "\" is required"
  }

  function ValueRequired(idKey: string): string
  {
    "Value for \"" + idKey + "\" must be filled in"
  }

  function MultipleMessage(idKey: string, id: string): string
  {
    "The " + idKey + " \"" + id + "\" is present multiple times in the configuration file which is invalid."
  }

  /** `ObjectProperties::check`: the target id is the string under `idKey`. */
  function Check(rule: ObjectProperties, idKey: string): Result<string, string>
  {
    if idKey !in rule.properties then Err(KeyRequired(idKey))
    else if !rule.properties[idKey].JString? then Err(ValueRequired(idKey))
    else Ok(rule.properties[idKey].s)
  }

  // ---------------------------------------------------------------------------------------
  // Configuration check

  predicate Distinct(ids: seq<string>)
  {
    forall i, j :: 0 <= i < j < |ids| ==> ids[i] != ids[j]
  }

  /** Inserting ids one by one into the set of used ids, failing on the first one already used. */
  function InsertIds(used: set<string>, ids: seq<string>, idKey: string): Result<set<string>, string>
    decreases |ids|
  {
    if ids == [] then Ok(used)
    else if ids[0] in used then Err(MultipleMessage(idKey, ids[0]))
    else InsertIds(used + {ids[0]}, ids[1..], idKey)
  }

  /** What `check_rules` computes from `used` on: each rule's target id, then its grouped ids. */
  function CheckedRules(rules: seq<ObjectProperties>, idKey: string, used: set<string>): Result<set<string>, string>
    decreases |rules|
  {
    if rules == [] then Ok(used)
    else
      var id :- Check(rules[0], idKey);
      var next :- InsertIds(used, [id] + rules[0].grouped_from, idKey);
      CheckedRules(rules[1..], idKey, next)
  }

  predicate AllCheck(rules: seq<ObjectProperties>, idKey: string)
  {
    forall i :: 0 <= i < |rules| ==> Check(rules[i], idKey).Ok?
  }

  /** Every id a category's rules mention, target first, in configuration order. */
  function RuleIds(rules: seq<ObjectProperties>, idKey: string): seq<string>
    requires AllCheck(rules, idKey)
    decreases |rules|
  {
    if rules == [] then []
    else [Check(rules[0], idKey).value] + rules[0].grouped_from + RuleIds(rules[1..], idKey)
  }

  lemma DistinctAppend(a: seq<string>, b: seq<string>)
    ensures Distinct(a + b) <==> Distinct(a) && Distinct(b) && forall x :: x in a ==> x !in b
  {
    var ab := a + b;
    if Distinct(a) && Distinct(b) && forall x :: x in a ==> x !in b {
      forall i, j | 0 <= i < j < |ab| ensures ab[i] != ab[j] {
        if j < |a| {
          assert ab[i] == a[i] && ab[j] == a[j];
        } else if i >= |a| {
          assert ab[i] == b[i - |a|] && ab[j] == b[j - |a|];
        } else {
          assert ab[i] == a[i] && a[i] in a && ab[j] == b[j - |a|] && b[j - |a|] in b;
        }
      }
    }
    if Distinct(ab) {
      forall i, j | 0 <= i < j < |a| ensures a[i] != a[j] {
        assert ab[i] == a[i] && ab[j] == a[j];
      }
      forall i, j | 0 <= i < j < |b| ensures b[i] != b[j] {
        assert ab[|a| + i] == b[i] && ab[|a| + j] == b[j];
      }
      forall x | x in a ensures x !in b {
        var i :| 0 <= i < |a| && a[i] == x;
        forall j | 0 <= j < |b| ensures b[j] != x {
          assert ab[i] == x && ab[|a| + j] == b[j];
        }
      }
    }
  }

  /** Inserting ids succeeds exactly when they are pairwise distinct and none was used before;
    * the failure names an id found twice. */
  lemma {:induction false} InsertIdsSpec(used: set<string>, ids: seq<string>, idKey: string)
    ensures InsertIds(used, ids, idKey).Ok? <==> Distinct(ids) && forall x :: x in ids ==> x !in used
    ensures InsertIds(used, ids, idKey).Ok? ==> InsertIds(used, ids, idKey).value == used + set x | x in ids
    ensures InsertIds(used, ids, idKey).Err? ==>
      exists x :: x in ids && InsertIds(used, ids, idKey).error == MultipleMessage(idKey, x)
    decreases |ids|
  {
    if ids != [] {
      var rest := ids[1..];
      assert ids == [ids[0]] + rest;
      DistinctAppend([ids[0]], rest);
      InsertIdsSpec(used + {ids[0]}, rest, idKey);
      assert forall x :: x in ids <==> x == ids[0] || x in rest;
    }
  }

  /** `check_rules` accepts a category exactly when every rule names its target and no id
    * occurs twice among the targets and grouped ids of all its rules; a refusal is a missing
    * or non-string target, or names an id found twice. */
  lemma {:induction false} CheckedRulesSpec(rules: seq<ObjectProperties>, idKey: string, used: set<string>)
    ensures CheckedRules(rules, idKey, used).Ok? <==>
      AllCheck(rules, idKey) && Distinct(RuleIds(rules, idKey)) && forall x :: x in RuleIds(rules, idKey) ==> x !in used
    ensures CheckedRules(rules, idKey, used).Err? ==>
      var e := CheckedRules(rules, idKey, used).error;
      e == KeyRequired(idKey) || e == ValueRequired(idKey) || exists x :: e == MultipleMessage(idKey, x)
    decreases |rules|
  {
    if rules != [] {
      var rest := rules[1..];
      assert forall i :: 0 < i < |rules| ==> rules[i] == rest[i - 1];
      assert AllCheck(rules, idKey) <==> Check(rules[0], idKey).Ok? && AllCheck(rest, idKey) by {
        if Check(rules[0], idKey).Ok? && AllCheck(rest, idKey) {
          forall i | 0 <= i < |rules| ensures Check(rules[i], idKey).Ok? {
            if i > 0 { assert rules[i] == rest[i - 1]; }
          }
        }
      }
      if Check(rules[0], idKey).Ok? {
        var id := Check(rules[0], idKey).value;
        var head := [id] + rules[0].grouped_from;
        InsertIdsSpec(used, head, idKey);
        match InsertIds(used, head, idKey) {
          case Err(_) =>
            if AllCheck(rest, idKey) {
              DistinctAppend(head, RuleIds(rest, idKey));
            }
          case Ok(next) =>
            CheckedRulesSpec(rest, idKey, next);
            if AllCheck(rest, idKey) {
              var tail := RuleIds(rest, idKey);
              assert RuleIds(rules, idKey) == head + tail;
              DistinctAppend(head, tail);
              assert forall x :: x in head + tail <==> x in head || x in tail;
            }
        }
      }
    }
  }

  /** `check_rules`: a loop over the rules, inserting into one set of used ids. */
  method CheckRules(rules: seq<ObjectProperties>, idKey: string) returns (r: Result<(), string>)
    ensures r.Ok? == CheckedRules(rules, idKey, {}).Ok?
    ensures r.Err? ==> r.error == CheckedRules(rules, idKey, {}).error
  {
    var used: set<string> := {};
    var i := 0;
    while i < |rules|
      invariant 0 <= i <= |rules|
      invariant CheckedRules(rules, idKey, {}) == CheckedRules(rules[i..], idKey, used)
    {
      var rule := rules[i];
      assert rules[i..][0] == rule && rules[i..][1..] == rules[i + 1..];
      var checked := Check(rule, idKey);
      if checked.Err? {
        return Err(checked.error);
      }
      var ids := [checked.value] + rule.grouped_from;
      var j := 0;
      ghost var start := used;
      while j < |ids|
        invariant 0 <= j <= |ids|
        invariant InsertIds(start, ids, idKey) == InsertIds(used, ids[j..], idKey)
      {
        assert ids[j..][0] == ids[j] && ids[j..][1..] == ids[j + 1..];
        if ids[j] in used {
          return Err(MultipleMessage(idKey, ids[j]));
        }
        used := used + {ids[j]};
        j := j + 1;
      }
      i := i + 1;
    }
    return Ok(());
  }

  function CategoryChecked(rules: Option<seq<ObjectProperties>>, idKey: string): Result<(), string>
  {
    match rules
    case None => Ok(())
    case Some(rs) =>
      var _ :- CheckedRules(rs, idKey, {});
      Ok(())
  }

  /** What `check_configuration` computes: the three categories, checked in turn. */
  function ConfigurationChecked(config: Configuration): Result<(), string>
  {
    var n :- CategoryChecked(config.networks_rules, "network_id");
    var m :- CategoryChecked(config.commercial_modes_rules, "commercial_mode_id");
    CategoryChecked(config.physical_modes_rules, "physical_mode_id")
  }

  /** The categories are validated independently: the configuration is accepted exactly when
    * each category is, and the first refused category gives the error. */
  lemma ConfigurationIndependent(config: Configuration)
    ensures ConfigurationChecked(config).Ok? <==>
      CategoryChecked(config.networks_rules, "network_id").Ok?
      && CategoryChecked(config.commercial_modes_rules, "commercial_mode_id").Ok?
      && CategoryChecked(config.physical_modes_rules, "physical_mode_id").Ok?
    ensures CategoryChecked(config.networks_rules, "network_id").Err? ==>
      ConfigurationChecked(config) == CategoryChecked(config.networks_rules, "network_id")
  {
  }

  /** A rule that groups its own target makes its category invalid. */
  lemma SelfGroupingRejected(rules: seq<ObjectProperties>, idKey: string, k: nat)
    requires k < |rules| && Check(rules[k], idKey).Ok? && Check(rules[k], idKey).value in rules[k].grouped_from
    ensures CheckedRules(rules, idKey, {}).Err?
  {
    CheckedRulesSpec(rules, idKey, {});
    if AllCheck(rules, idKey) {
      var j :| 0 <= j < |rules[k].grouped_from| && rules[k].grouped_from[j] == Check(rules[k], idKey).value;
      RuleIdsAt(rules, idKey, k);
      var before := |RuleIdsBefore(rules, idKey, k)|;
      assert RuleIds(rules, idKey)[before] == RuleIds(rules, idKey)[before + 1 + j];
    }
  }

  function RuleIdsBefore(rules: seq<ObjectProperties>, idKey: string, k: nat): seq<string>
    requires AllCheck(rules, idKey) && k <= |rules|
    decreases k
  {
    if k == 0 then [] else [Check(rules[0], idKey).value] + rules[0].grouped_from + RuleIdsBefore(rules[1..], idKey, k - 1)
  }

  lemma {:induction false} RuleIdsAt(rules: seq<ObjectProperties>, idKey: string, k: nat)
    requires AllCheck(rules, idKey) && k < |rules|
    ensures var b := RuleIdsBefore(rules, idKey, k);
      |b| + 1 + |rules[k].grouped_from| <= |RuleIds(rules, idKey)|
      && RuleIds(rules, idKey)[|b|] == Check(rules[k], idKey).value
      && forall j :: 0 <= j < |rules[k].grouped_from| ==> RuleIds(rules, idKey)[|b| + 1 + j] == rules[k].grouped_from[j]
    decreases k
  {
    if k > 0 {
      RuleIdsAt(rules[1..], idKey, k - 1);
    }
  }

  /** `check_configuration`: the three categories in turn, networks first. */
  method CheckConfiguration(config: Configuration) returns (r: Result<(), string>)
    ensures r == ConfigurationChecked(config)
  {
    if config.networks_rules.Some? {
      var n := CheckRules(config.networks_rules.value, "network_id");
      if n.Err? {
        return Err(n.error);
      }
    }
    if config.commercial_modes_rules.Some? {
      var m := CheckRules(config.commercial_modes_rules.value, "commercial_mode_id");
      if m.Err? {
        return Err(m.error);
      }
    }
    if config.physical_modes_rules.Some? {
      var p := CheckRules(config.physical_modes_rules.value, "physical_mode_id");
      if p.Err? {
        return Err(p.error);
      }
    }
    return Ok(());
  }

  // ---------------------------------------------------------------------------------------
  // The part of the model the rules read and change

  /** A network, commercial mode or physical mode: its id and its other fields. A record
    * created by a rule takes its id from the target id and its fields from the rule's
    * properties. */
  datatype Entity = Entity(id: string, fields: Properties)

  datatype Line = Line(id: string, network_id: string, commercial_mode_id: string)

  /** The object type of a ticket-use perimeter: only network perimeters are repointed. */
  datatype PerimeterObject = NetworkObject | OtherObject

  datatype TicketUsePerimeter = TicketUsePerimeter(object_type: PerimeterObject, object_id: string)

  datatype VehicleJourney = VehicleJourney(id: string, physical_mode_id: string)

  datatype Collections = Collections(
    networks: seq<Entity>,
    commercial_modes: seq<Entity>,
    physical_modes: seq<Entity>,
    lines: seq<Line>,
    ticket_use_perimeters: seq<TicketUsePerimeter>,
    vehicle_journeys: seq<VehicleJourney>)

  function EntityKey(e: Entity): string { e.id }

  function LineNetwork(l: Line): string { l.network_id }

  function LineCommercialMode(l: Line): string { l.commercial_mode_id }

  function JourneyPhysicalMode(v: VehicleJourney): string { v.physical_mode_id }

  /** A reverse index: from an id to the positions of the records referring to it. */
  type Index = map<string, set<Idx>>

  function Referencing<T>(s: seq<T>, ref: T -> string, id: string): set<Idx>
  {
    set i: Idx | i < |s| && ref(s[i]) == id
  }

  /** The index built in `new` from `get_corresponding_from_idx`: for each record of
    * `targets` that some record of `s` refers to, the positions of those records. */
  function IndexBy<T>(targets: seq<Entity>, s: seq<T>, ref: T -> string): Index
  {
    map id | id in IdSet(targets, EntityKey) && Referencing(s, ref, id) != {} :: Referencing(s, ref, id)
  }

  function NetworkPerimeters(tups: seq<TicketUsePerimeter>, id: string): set<Idx>
  {
    set i: Idx | i < |tups| && tups[i].object_type == NetworkObject && tups[i].object_id == id
  }

  /** The fold of `new` over the network perimeters, keyed by the id they name. */
  function PerimetersByNetwork(tups: seq<TicketUsePerimeter>): Index
  {
    map id | id in (set t | t in tups && t.object_type == NetworkObject :: t.object_id) :: NetworkPerimeters(tups, id)
  }

  datatype ObjectRule = ObjectRule(
    configuration: Configuration,
    lines_by_network: Option<Index>,
    ticket_use_perimeters_by_network: Option<Index>,
    lines_by_commercial_mode: Option<Index>,
    vjs_by_physical_mode: Option<Index>)

  /** What `ObjectRule::new` computes once the configuration is read: the configuration is
    * checked, then each index of a category that has rules is taken from `c`. */
  function Built(config: Configuration, c: Collections): Result<ObjectRule, string>
  {
    var _ :- ConfigurationChecked(config);
    Ok(ObjectRule(
      config,
      if config.networks_rules.Some? then Some(IndexBy(c.networks, c.lines, LineNetwork)) else None,
      if config.networks_rules.Some? then Some(PerimetersByNetwork(c.ticket_use_perimeters)) else None,
      if config.commercial_modes_rules.Some? then Some(IndexBy(c.commercial_modes, c.lines, LineCommercialMode)) else None,
      if config.physical_modes_rules.Some? then Some(IndexBy(c.physical_modes, c.vehicle_journeys, JourneyPhysicalMode)) else None))
  }

  /** `ObjectRule::new`: the configuration is validated before the indices are built. */
  method New(config: Configuration, c: Collections) returns (r: Result<ObjectRule, string>)
    ensures r == Built(config, c)
  {
    var checked := CheckConfiguration(config);
    if checked.Err? {
      return Err(checked.error);
    }
    r := Ok(ObjectRule(
      config,
      if config.networks_rules.Some? then Some(IndexBy(c.networks, c.lines, LineNetwork)) else None,
      if config.networks_rules.Some? then Some(PerimetersByNetwork(c.ticket_use_perimeters)) else None,
      if config.commercial_modes_rules.Some? then Some(IndexBy(c.commercial_modes, c.lines, LineCommercialMode)) else None,
      if config.physical_modes_rules.Some? then Some(IndexBy(c.physical_modes, c.vehicle_journeys, JourneyPhysicalMode)) else None));
  }

  /** An index entry is exactly the positions referring to an existing target, and only
    * targets that are referred to have an entry. */
  lemma IndexByExact<T>(targets: seq<Entity>, s: seq<T>, ref: T -> string, id: string, i: Idx)
    ensures (id in IndexBy(targets, s, ref) && i in IndexBy(targets, s, ref)[id]) <==>
      id in IdSet(targets, EntityKey) && i < |s| && ref(s[i]) == id
    ensures id in IndexBy(targets, s, ref) <==> id in IdSet(targets, EntityKey) && exists j :: 0 <= j < |s| && ref(s[j]) == id
  {
    if id in IdSet(targets, EntityKey) && exists j :: 0 <= j < |s| && ref(s[j]) == id {
      var j :| 0 <= j < |s| && ref(s[j]) == id;
      assert j in Referencing(s, ref, id);
    }
  }

  /** A perimeter index entry is exactly the network perimeters naming that id. */
  lemma PerimetersByNetworkExact(tups: seq<TicketUsePerimeter>, id: string, i: Idx)
    ensures (id in PerimetersByNetwork(tups) && i in PerimetersByNetwork(tups)[id]) <==>
      i < |tups| && tups[i].object_type == NetworkObject && tups[i].object_id == id
  {
    if i < |tups| && tups[i].object_type == NetworkObject && tups[i].object_id == id {
      assert tups[i] in tups;
    }
  }

  predicate InRange(index: Option<Index>, n: nat)
  {
    index.Some? ==> forall id, i :: id in index.value && i in index.value[id] ==> i < n
  }

  /** The indices point into the collections they are used on. */
  predicate Fits(rule: ObjectRule, c: Collections)
  {
    InRange(rule.lines_by_network, |c.lines|)
    && InRange(rule.ticket_use_perimeters_by_network, |c.ticket_use_perimeters|)
    && InRange(rule.lines_by_commercial_mode, |c.lines|)
    && InRange(rule.vjs_by_physical_mode, |c.vehicle_journeys|)
  }

  /** Indices are built from the model before any change, and a category has them exactly
    * when it has rules. */
  lemma BuiltFits(config: Configuration, c: Collections)
    requires Built(config, c).Ok?
    ensures Fits(Built(config, c).value, c)
    ensures var rule := Built(config, c).value;
      rule.configuration == config
      && (rule.lines_by_network.Some? <==> config.networks_rules.Some?)
      && (rule.ticket_use_perimeters_by_network.Some? <==> config.networks_rules.Some?)
      && (rule.lines_by_commercial_mode.Some? <==> config.commercial_modes_rules.Some?)
      && (rule.vjs_by_physical_mode.Some? <==> config.physical_modes_rules.Some?)
  {
    var rule := Built(config, c).value;
    forall id, i | rule.lines_by_network.Some? && id in rule.lines_by_network.value && i in rule.lines_by_network.value[id]
      ensures i < |c.lines|
    {
      IndexByExact(c.networks, c.lines, LineNetwork, id, i);
    }
    forall id, i | rule.ticket_use_perimeters_by_network.Some? && id in rule.ticket_use_perimeters_by_network.value
      && i in rule.ticket_use_perimeters_by_network.value[id]
      ensures i < |c.ticket_use_perimeters|
    {
      PerimetersByNetworkExact(c.ticket_use_perimeters, id, i);
    }
    forall id, i | rule.lines_by_commercial_mode.Some? && id in rule.lines_by_commercial_mode.value
      && i in rule.lines_by_commercial_mode.value[id]
      ensures i < |c.lines|
    {
      IndexByExact(c.commercial_modes, c.lines, LineCommercialMode, id, i);
    }
    forall id, i | rule.vjs_by_physical_mode.Some? && id in rule.vjs_by_physical_mode.value
      && i in rule.vjs_by_physical_mode.value[id]
      ensures i < |c.vehicle_journeys|
    {
      IndexByExact(c.physical_modes, c.vehicle_journeys, JourneyPhysicalMode, id, i);
    }
  }

  // ---------------------------------------------------------------------------------------
  // Repointing

  /** `s` with `f` applied at the positions in `idxs`. */
  function Repointed<T>(s: seq<T>, idxs: set<Idx>, f: T -> T): (r: seq<T>)
    ensures |r| == |s|
  {
    seq(|s|, i requires 0 <= i < |s| => if i in idxs then f(s[i]) else s[i])
  }

  function SetNetwork(id: string): Line -> Line
  {
    (l: Line) => l.(network_id := id)
  }

  function SetPerimeterObject(id: string): TicketUsePerimeter -> TicketUsePerimeter
  {
    (t: TicketUsePerimeter) => t.(object_id := id)
  }

  function SetCommercialMode(id: string): Line -> Line
  {
    (l: Line) => l.(commercial_mode_id := id)
  }

  function SetPhysicalMode(id: string): VehicleJourney -> VehicleJourney
  {
    (v: VehicleJourney) => v.(physical_mode_id := id)
  }

  /** The loop `for idx in indexes { collection.index_mut(idx).field = id }`. */
  method RepointAll<T>(s: seq<T>, idxs: set<Idx>, f: T -> T) returns (r: seq<T>)
    requires forall i :: i in idxs ==> i < |s|
    ensures r == Repointed(s, idxs, f)
  {
    r := s;
    var rest := idxs;
    while rest != {}
      invariant rest <= idxs && |r| == |s|
      invariant forall i :: 0 <= i < |s| ==> r[i] == if i in idxs - rest then f(s[i]) else s[i]
      decreases |rest|
    {
      var i :| i in rest;
      r := r[i := f(r[i])];
      rest := rest - {i};
    }
  }

  function Lookup(index: Option<Index>, id: string): Option<set<Idx>>
  {
    if index.Some? && id in index.value then Some(index.value[id]) else None
  }

  function Repoint<T>(s: seq<T>, idxs: Option<set<Idx>>, f: T -> T): (r: seq<T>)
    ensures |r| == |s|
  {
    if idxs.Some? then Repointed(s, idxs.value, f) else s
  }

  /** Repointing leaves the networks, commercial modes and physical modes alone. */
  predicate SameTargets(c: Collections, d: Collections)
  {
    c.networks == d.networks && c.commercial_modes == d.commercial_modes && c.physical_modes == d.physical_modes
  }

  /** The records whose references a category's rules rewrite are the same size afterwards. */
  predicate SameSizes(c: Collections, d: Collections)
  {
    |c.lines| == |d.lines| && |c.ticket_use_perimeters| == |d.ticket_use_perimeters|
    && |c.vehicle_journeys| == |d.vehicle_journeys|
  }

  /** The `regroup_update` closure of each category, applied for the absorbed id `removed`:
    * the records the index lists under `removed` now refer to `target`, and the result says
    * whether the index had an entry. */
  function Updated(cat: Category, rule: ObjectRule, c: Collections, target: string, removed: string): (r: (Collections, bool))
    ensures SameSizes(r.0, c) && SameTargets(r.0, c)
  {
    match cat
    case Networks =>
      var ls := Lookup(rule.lines_by_network, removed);
      var ts := Lookup(rule.ticket_use_perimeters_by_network, removed);
      (c.(lines := Repoint(c.lines, ls, SetNetwork(target)),
          ticket_use_perimeters := Repoint(c.ticket_use_perimeters, ts, SetPerimeterObject(target))),
       ls.Some? || ts.Some?)
    case CommercialModes =>
      var ls := Lookup(rule.lines_by_commercial_mode, removed);
      (c.(lines := Repoint(c.lines, ls, SetCommercialMode(target))), ls.Some?)
    case PhysicalModes =>
      var vs := Lookup(rule.vjs_by_physical_mode, removed);
      (c.(vehicle_journeys := Repoint(c.vehicle_journeys, vs, SetPhysicalMode(target))), vs.Some?)
  }

  method Update(cat: Category, rule: ObjectRule, c: Collections, target: string, removed: string)
    returns (d: Collections, changed: bool)
    requires Fits(rule, c)
    ensures d == Updated(cat, rule, c, target, removed).0 && changed == Updated(cat, rule, c, target, removed).1
  {
    d := c;
    match cat {
      case Networks =>
        var ls := Lookup(rule.lines_by_network, removed);
        if ls.Some? {
          var lines := RepointAll(c.lines, ls.value, SetNetwork(target));
          d := d.(lines := lines);
        }
        var ts := Lookup(rule.ticket_use_perimeters_by_network, removed);
        if ts.Some? {
          var tups := RepointAll(c.ticket_use_perimeters, ts.value, SetPerimeterObject(target));
          d := d.(ticket_use_perimeters := tups);
        }
        changed := ls.Some? || ts.Some?;
      case CommercialModes =>
        var ls := Lookup(rule.lines_by_commercial_mode, removed);
        if ls.Some? {
          var lines := RepointAll(c.lines, ls.value, SetCommercialMode(target));
          d := d.(lines := lines);
        }
        changed := ls.Some?;
      case PhysicalModes =>
        var vs := Lookup(rule.vjs_by_physical_mode, removed);
        if vs.Some? {
          var vjs := RepointAll(c.vehicle_journeys, vs.value, SetPhysicalMode(target));
          d := d.(vehicle_journeys := vjs);
        }
        changed := vs.Some?;
    }
  }

  // ---------------------------------------------------------------------------------------
  // Regrouping one rule's ids

  function NotFoundMessage(grouped: string, id: string): string
  {
    "The identifier \"" + grouped + "\" doesn't exist, and therefore cannot be regrouped in \"" + id + "\""
  }

  function NotFoundRow(grouped: string, id: string): Row
  {
    Report.ReportRow(ObjectNotFound, NotFoundMessage(grouped, id))
  }

  /** What `regroup` has done after a prefix of the grouped ids. */
  datatype Regrouping = Regrouping(c: Collections, changed: bool, errors: seq<Row>)

  /** `regroup` over `grouped`, the absorbed ids, with `present` the ids of the target
    * collection: a missing id is reported, an existing one goes through the category's
    * update, which runs even when something already changed. */
  function Regrouped(cat: Category, rule: ObjectRule, c: Collections, id: string, grouped: seq<string>, present: set<string>): (r: Regrouping)
    ensures SameSizes(r.c, c) && SameTargets(r.c, c)
    decreases |grouped|
  {
    if grouped == [] then Regrouping(c, false, [])
    else
      var prev := Regrouped(cat, rule, c, id, grouped[..|grouped| - 1], present);
      var g := grouped[|grouped| - 1];
      if g !in present then prev.(errors := prev.errors + [NotFoundRow(g, id)])
      else
        var u := Updated(cat, rule, prev.c, id, g);
        Regrouping(u.0, u.1 || prev.changed, prev.errors)
  }

  /** One more grouped id that is missing: one more error. */
  lemma RegroupedMissing(cat: Category, rule: ObjectRule, c: Collections, id: string, grouped: seq<string>, present: set<string>, i: nat)
    requires i < |grouped| && grouped[i] !in present
    ensures Regrouped(cat, rule, c, id, grouped[..i + 1], present) ==
      Regrouped(cat, rule, c, id, grouped[..i], present).(errors := Regrouped(cat, rule, c, id, grouped[..i], present).errors + [NotFoundRow(grouped[i], id)])
  {
    assert grouped[..i + 1][..i] == grouped[..i];
  }

  /** One more grouped id that exists: the category's update runs. */
  lemma RegroupedFound(cat: Category, rule: ObjectRule, c: Collections, id: string, grouped: seq<string>, present: set<string>, i: nat)
    requires i < |grouped| && grouped[i] in present
    ensures Regrouped(cat, rule, c, id, grouped[..i + 1], present) ==
      Regrouping(Updated(cat, rule, Regrouped(cat, rule, c, id, grouped[..i], present).c, id, grouped[i]).0,
                 Updated(cat, rule, Regrouped(cat, rule, c, id, grouped[..i], present).c, id, grouped[i]).1
                   || Regrouped(cat, rule, c, id, grouped[..i], present).changed,
                 Regrouped(cat, rule, c, id, grouped[..i], present).errors)
  {
    assert grouped[..i + 1][..i] == grouped[..i];
  }

  /** `regroup`: one pass over the grouped ids, reporting each missing one. */
  method Regroup(cat: Category, rule: ObjectRule, c: Collections, id: string, grouped: seq<string>, present: set<string>,
                 report: Report.Report<ReportCategory>)
    returns (d: Collections, changed: bool)
    requires Fits(rule, c)
    modifies report
    ensures d == Regrouped(cat, rule, c, id, grouped, present).c
    ensures changed == Regrouped(cat, rule, c, id, grouped, present).changed
    ensures report.errors == Report.RecordAll(old(report.errors), Regrouped(cat, rule, c, id, grouped, present).errors)
    ensures report.warnings == old(report.warnings)
  {
    d := c;
    changed := false;
    ghost var errs: seq<Row> := [];
    var i := 0;
    while i < |grouped|
      invariant 0 <= i <= |grouped|
      invariant Regrouped(cat, rule, c, id, grouped[..i], present) == Regrouping(d, changed, errs)
      invariant SameSizes(d, c)
      invariant report.errors == Report.RecordAll(old(report.errors), errs)
      invariant report.warnings == old(report.warnings)
    {
      var g := grouped[i];
      if g !in present {
        RegroupedMissing(cat, rule, c, id, grouped, present, i);
        report.AddError(NotFoundMessage(g, id), ObjectNotFound);
        Report.RecordAllConcat(old(report.errors), errs, [NotFoundRow(g, id)]);
        errs := errs + [NotFoundRow(g, id)];
      } else {
        RegroupedFound(cat, rule, c, id, grouped, present, i);
        var next, ch := Update(cat, rule, d, id, g);
        d := next;
        changed := ch || changed;
      }
      i := i + 1;
    }
    assert grouped[..i] == grouped;
  }

  /** The positions an index lists under any of `ids`. */
  function Gathered(index: Option<Index>, ids: set<string>): set<Idx>
  {
    if index.None? then {} else set id, i | id in ids && id in index.value && i in index.value[id] :: i
  }

  /** Every absorbed id's referring records repointed at once. */
  function UpdatedAll(cat: Category, rule: ObjectRule, c: Collections, target: string, ids: set<string>): Collections
  {
    match cat
    case Networks =>
      c.(lines := Repointed(c.lines, Gathered(rule.lines_by_network, ids), SetNetwork(target)),
         ticket_use_perimeters :=
           Repointed(c.ticket_use_perimeters, Gathered(rule.ticket_use_perimeters_by_network, ids), SetPerimeterObject(target)))
    case CommercialModes =>
      c.(lines := Repointed(c.lines, Gathered(rule.lines_by_commercial_mode, ids), SetCommercialMode(target)))
    case PhysicalModes =>
      c.(vehicle_journeys := Repointed(c.vehicle_journeys, Gathered(rule.vjs_by_physical_mode, ids), SetPhysicalMode(target)))
  }

  /** Whether the category's update for `id` reports a change. */
  predicate HasReferences(cat: Category, rule: ObjectRule, id: string)
  {
    match cat
    case Networks => Lookup(rule.lines_by_network, id).Some? || Lookup(rule.ticket_use_perimeters_by_network, id).Some?
    case CommercialModes => Lookup(rule.lines_by_commercial_mode, id).Some?
    case PhysicalModes => Lookup(rule.vjs_by_physical_mode, id).Some?
  }

  /** Some existing grouped id has records referring to it. */
  predicate Repoints(cat: Category, rule: ObjectRule, grouped: seq<string>, present: set<string>)
  {
    exists g :: g in grouped && g in present && HasReferences(cat, rule, g)
  }

  function PresentIds(grouped: seq<string>, present: set<string>): set<string>
  {
    set g | g in grouped && g in present
  }

  function Absent(present: set<string>): string -> bool
  {
    (g: string) => g !in present
  }

  function NotFoundRows(missing: seq<string>, id: string): (r: seq<Row>)
    ensures |r| == |missing|
  {
    seq(|missing|, i requires 0 <= i < |missing| => NotFoundRow(missing[i], id))
  }

  lemma RepointedNothing<T>(s: seq<T>, f: T -> T)
    ensures Repointed(s, {}, f) == s
  {
  }

  /** Repointing by one more entry of the index, with a setter, is repointing by the union. */
  lemma RepointStep<T>(s: seq<T>, index: Option<Index>, ids: set<string>, g: string, f: T -> T)
    requires forall x :: f(f(x)) == f(x)
    ensures Repoint(Repointed(s, Gathered(index, ids), f), Lookup(index, g), f) == Repointed(s, Gathered(index, ids + {g}), f)
  {
    var a := Gathered(index, ids);
    var b := Gathered(index, ids + {g});
    var extra := if Lookup(index, g).Some? then Lookup(index, g).value else {};
    assert b == a + extra by {
      forall i | i in b ensures i in a + extra {
        var id :| id in ids + {g} && id in index.value && i in index.value[id];
      }
      forall i | i in a + extra ensures i in b {
        if i in a {
          var id :| id in ids && id in index.value && i in index.value[id];
        }
      }
    }
  }

  lemma NotFoundRowsSnoc(missing: seq<string>, g: string, id: string)
    ensures NotFoundRows(missing + [g], id) == NotFoundRows(missing, id) + [NotFoundRow(g, id)]
  {
  }

  /** `regroup` repoints the records referring to any existing grouped id to the target,
    * and leaves every other record alone. */
  lemma {:induction false} RegroupedRefs(cat: Category, rule: ObjectRule, c: Collections, id: string, grouped: seq<string>, present: set<string>)
    ensures Regrouped(cat, rule, c, id, grouped, present).c == UpdatedAll(cat, rule, c, id, PresentIds(grouped, present))
    decreases |grouped|
  {
    if grouped == [] {
      RepointedNothing(c.lines, SetNetwork(id));
      RepointedNothing(c.lines, SetCommercialMode(id));
      RepointedNothing(c.ticket_use_perimeters, SetPerimeterObject(id));
      RepointedNothing(c.vehicle_journeys, SetPhysicalMode(id));
      assert Gathered(rule.lines_by_network, {}) == {};
      assert Gathered(rule.lines_by_commercial_mode, {}) == {};
      assert Gathered(rule.ticket_use_perimeters_by_network, {}) == {};
      assert Gathered(rule.vjs_by_physical_mode, {}) == {};
    } else {
      var front := grouped[..|grouped| - 1];
      var g := grouped[|grouped| - 1];
      assert grouped == front + [g];
      RegroupedRefs(cat, rule, c, id, front, present);
      var ids := PresentIds(front, present);
      assert forall x :: x in grouped <==> x in front || x == g;
      if g in present {
        assert PresentIds(grouped, present) == ids + {g};
        match cat {
          case Networks =>
            RepointStep(c.lines, rule.lines_by_network, ids, g, SetNetwork(id));
            RepointStep(c.ticket_use_perimeters, rule.ticket_use_perimeters_by_network, ids, g, SetPerimeterObject(id));
          case CommercialModes =>
            RepointStep(c.lines, rule.lines_by_commercial_mode, ids, g, SetCommercialMode(id));
          case PhysicalModes =>
            RepointStep(c.vehicle_journeys, rule.vjs_by_physical_mode, ids, g, SetPhysicalMode(id));
        }
      } else {
        assert PresentIds(grouped, present) == ids;
      }
    }
  }

  /** The update reports a change exactly when the index has an entry for the id. */
  lemma UpdatedChanged(cat: Category, rule: ObjectRule, c: Collections, target: string, removed: string)
    ensures Updated(cat, rule, c, target, removed).1 == HasReferences(cat, rule, removed)
  {
  }

  /** `regroup` reports a change exactly when some existing grouped id has referring
    * records. */
  lemma {:induction false} RegroupedChanged(cat: Category, rule: ObjectRule, c: Collections, id: string, grouped: seq<string>, present: set<string>)
    ensures Regrouped(cat, rule, c, id, grouped, present).changed <==> Repoints(cat, rule, grouped, present)
    decreases |grouped|
  {
    if grouped != [] {
      var front := grouped[..|grouped| - 1];
      var g := grouped[|grouped| - 1];
      assert grouped == front + [g];
      RegroupedChanged(cat, rule, c, id, front, present);
      UpdatedChanged(cat, rule, Regrouped(cat, rule, c, id, front, present).c, id, g);
      assert forall x :: x in grouped <==> x in front || x == g;
    }
  }

  /** `regroup` files one ObjectNotFound error per missing grouped id, in order. */
  lemma {:induction false} RegroupedErrors(cat: Category, rule: ObjectRule, c: Collections, id: string, grouped: seq<string>, present: set<string>)
    ensures Regrouped(cat, rule, c, id, grouped, present).errors == NotFoundRows(Retain(grouped, Absent(present)), id)
    decreases |grouped|
  {
    if grouped != [] {
      var front := grouped[..|grouped| - 1];
      var g := grouped[|grouped| - 1];
      assert grouped == front + [g];
      RegroupedErrors(cat, rule, c, id, front, present);
      Upsert.RetainSnoc(front, g, Absent(present));
      if g !in present {
        NotFoundRowsSnoc(Retain(front, Absent(present)), g, id);
      }
    }
  }

  // ---------------------------------------------------------------------------------------
  // Applying the rules

  function Targets(c: Collections, cat: Category): seq<Entity>
  {
    match cat
    case Networks => c.networks
    case CommercialModes => c.commercial_modes
    case PhysicalModes => c.physical_modes
  }

  function WithTargets(c: Collections, cat: Category, s: seq<Entity>): (r: Collections)
    ensures SameSizes(r, c)
  {
    match cat
    case Networks => c.(networks := s)
    case CommercialModes => c.(commercial_modes := s)
    case PhysicalModes => c.(physical_modes := s)
  }

  function NotGrouped(grouped: seq<string>): Entity -> bool
  {
    (e: Entity) => e.id !in grouped
  }

  function CreatedMessage(idKey: string, id: string): string
  {
    "Object with " + idKey + " \"" + id + "\" was created but must be used (through properties_rules) or else it will be deleted"
  }

  function NotAppliedMessage(idKey: string, id: string): string
  {
    "The rule on " + idKey + " \"" + id + "\" was not applied"
  }

  /** The deserialisation of a rule's properties into the fields of a new record; it may fail. */
  type Decoder = Properties -> Result<Properties, string>

  /** The rows a step files, in order, in each list of the report. */
  datatype Outcome = Outcome(c: Collections, warnings: seq<Row>, errors: seq<Row>)

  /** The target collection once the rule's target is known to exist: an absent target is
    * built from the rule's properties and pushed. */
  function WithTarget(c: Collections, cat: Category, id: string, p: ObjectProperties, decode: Decoder): Result<Collections, string>
  {
    if id in IdSet(Targets(c, cat), EntityKey) then Ok(c)
    else
      var fields :- decode(p.properties);
      Ok(WithTargets(c, cat, Targets(c, cat) + [Entity(id, fields)]))
  }

  /** `ObjectProperties::apply` for one rule of category `cat`. */
  function Applied(cat: Category, rule: ObjectRule, p: ObjectProperties, c: Collections, decode: Decoder): (r: Result<Outcome, string>)
    ensures r.Ok? ==> SameSizes(r.value.c, c)
  {
    var id :- Check(p, IdKey(cat));
    var created := id !in IdSet(Targets(c, cat), EntityKey);
    var c1 :- WithTarget(c, cat, id, p, decode);
    Ok(Finished(cat, p.grouped_from, id, created, Regrouped(cat, rule, c1, id, p.grouped_from, IdSet(Targets(c1, cat), EntityKey))))
  }

  /** The end of `apply`: the grouped records are removed if the regrouping changed
    * something; otherwise the rule is reported. */
  function Finished(cat: Category, grouped: seq<string>, id: string, created: bool, st: Regrouping): (o: Outcome)
    ensures SameSizes(o.c, st.c)
  {
    if st.changed then
      Outcome(WithTargets(st.c, cat, Retain(Targets(st.c, cat), NotGrouped(grouped))), [], st.errors)
    else if created then
      Outcome(st.c, [Report.ReportRow(UnknownPropertyValue, CreatedMessage(IdKey(cat), id))], st.errors)
    else
      Outcome(st.c, [], st.errors + [Report.ReportRow(ObjectNotFound, NotAppliedMessage(IdKey(cat), id))])
  }

  /** `ObjectProperties::apply`: find or create the target, regroup, then either delete the
    * absorbed records or report that the rule did nothing. */
  method Apply(cat: Category, rule: ObjectRule, p: ObjectProperties, c: Collections, decode: Decoder,
               report: Report.Report<ReportCategory>)
    returns (r: Result<Collections, string>)
    requires Fits(rule, c)
    modifies report
    ensures r.Ok? == Applied(cat, rule, p, c, decode).Ok?
    ensures r.Ok? ==>
      r.value == Applied(cat, rule, p, c, decode).value.c
      && report.warnings == Report.RecordAll(old(report.warnings), Applied(cat, rule, p, c, decode).value.warnings)
      && report.errors == Report.RecordAll(old(report.errors), Applied(cat, rule, p, c, decode).value.errors)
    ensures r.Err? ==>
      r.error == Applied(cat, rule, p, c, decode).error
      && report.warnings == old(report.warnings) && report.errors == old(report.errors)
  {
    var checked := Check(p, IdKey(cat));
    if checked.Err? {
      return Err(checked.error);
    }
    var id := checked.value;
    var created := false;
    var c1 := c;
    if id !in IdSet(Targets(c, cat), EntityKey) {
      var fields := decode(p.properties);
      if fields.Err? {
        return Err(fields.error);
      }
      c1 := WithTargets(c, cat, Targets(c, cat) + [Entity(id, fields.value)]);
      created := true;
    }
    r := Finish(cat, rule, p.grouped_from, id, created, c1, report);
  }

  /** The second half of `ObjectProperties::apply`, once the target exists in `c`: regroup,
    * then delete the absorbed records or report the rule. */
  method Finish(cat: Category, rule: ObjectRule, grouped: seq<string>, id: string, created: bool, c: Collections,
                report: Report.Report<ReportCategory>)
    returns (r: Result<Collections, string>)
    requires Fits(rule, c)
    modifies report
    ensures r == Ok(Finished(cat, grouped, id, created, Regrouped(cat, rule, c, id, grouped, IdSet(Targets(c, cat), EntityKey))).c)
    ensures report.warnings == Report.RecordAll(old(report.warnings),
      Finished(cat, grouped, id, created, Regrouped(cat, rule, c, id, grouped, IdSet(Targets(c, cat), EntityKey))).warnings)
    ensures report.errors == Report.RecordAll(old(report.errors),
      Finished(cat, grouped, id, created, Regrouped(cat, rule, c, id, grouped, IdSet(Targets(c, cat), EntityKey))).errors)
  {
    var d, applied := Regroup(cat, rule, c, id, grouped, IdSet(Targets(c, cat), EntityKey), report);
    Report.RecordAllShort(old(report.warnings), Report.ReportRow(UnknownPropertyValue, CreatedMessage(IdKey(cat), id)));
    if applied {
      r := Ok(WithTargets(d, cat, Retain(Targets(d, cat), NotGrouped(grouped))));
    } else if created {
      report.AddWarning(CreatedMessage(IdKey(cat), id), UnknownPropertyValue);
      r := Ok(d);
    } else {
      report.AddError(NotAppliedMessage(IdKey(cat), id), ObjectNotFound);
      Report.RecordAllConcat(old(report.errors), Regrouped(cat, rule, c, id, grouped, IdSet(Targets(c, cat), EntityKey)).errors,
                             [Report.ReportRow(ObjectNotFound, NotAppliedMessage(IdKey(cat), id))]);
      r := Ok(d);
    }
  }

  /** A rule fails only when its target id is missing or not a string, or when an absent
    * target cannot be built from its properties. */
  lemma AppliedFails(cat: Category, rule: ObjectRule, p: ObjectProperties, c: Collections, decode: Decoder)
    ensures Applied(cat, rule, p, c, decode).Err? <==>
      Check(p, IdKey(cat)).Err?
      || (Check(p, IdKey(cat)).value !in IdSet(Targets(c, cat), EntityKey) && decode(p.properties).Err?)
  {
  }

  /** The target collection once the target exists: an absent target was appended. */
  function TargetsWith(c: Collections, cat: Category, id: string, p: ObjectProperties, decode: Decoder): seq<Entity>
    requires id in IdSet(Targets(c, cat), EntityKey) || decode(p.properties).Ok?
  {
    if id in IdSet(Targets(c, cat), EntityKey) then Targets(c, cat)
    else Targets(c, cat) + [Entity(id, decode(p.properties).value)]
  }

  lemma UpdatedAllRefs(cat: Category, rule: ObjectRule, c: Collections, d: Collections, target: string, ids: set<string>)
    requires c.lines == d.lines && c.ticket_use_perimeters == d.ticket_use_perimeters && c.vehicle_journeys == d.vehicle_journeys
    ensures var x := UpdatedAll(cat, rule, c, target, ids);
      var y := UpdatedAll(cat, rule, d, target, ids);
      x.lines == y.lines && x.ticket_use_perimeters == y.ticket_use_perimeters && x.vehicle_journeys == y.vehicle_journeys
  {
  }

  /** Applying a rule whose target id is readable and whose target exists or can be built
    * succeeds, with the target then present. */
  lemma AppliedIs(cat: Category, rule: ObjectRule, p: ObjectProperties, c: Collections, decode: Decoder)
    requires Check(p, IdKey(cat)).Ok?
    requires Check(p, IdKey(cat)).value in IdSet(Targets(c, cat), EntityKey) || decode(p.properties).Ok?
    ensures var id := Check(p, IdKey(cat)).value;
      var t := TargetsWith(c, cat, id, p, decode);
      var c1 := WithTargets(c, cat, t);
      id in IdSet(t, EntityKey)
      && Applied(cat, rule, p, c, decode)
         == Ok(Finished(cat, p.grouped_from, id, id !in IdSet(Targets(c, cat), EntityKey),
                        Regrouped(cat, rule, c1, id, p.grouped_from, IdSet(t, EntityKey))))
  {
    var id := Check(p, IdKey(cat)).value;
    if id !in IdSet(Targets(c, cat), EntityKey) {
      IdSetAppend(Targets(c, cat), [Entity(id, decode(p.properties).value)], EntityKey);
      Upsert.IdSetSingleton(Entity(id, decode(p.properties).value), EntityKey);
    } else {
      assert WithTargets(c, cat, Targets(c, cat)) == c;
    }
  }

  /** Applying one rule, on the records that refer to its category: those referring to an
    * existing grouped id now refer to the target, and the others are unchanged. */
  lemma AppliedRefs(cat: Category, rule: ObjectRule, p: ObjectProperties, c: Collections, decode: Decoder)
    requires Check(p, IdKey(cat)).Ok?
    requires Check(p, IdKey(cat)).value in IdSet(Targets(c, cat), EntityKey) || decode(p.properties).Ok?
    ensures var id := Check(p, IdKey(cat)).value;
      var a := Applied(cat, rule, p, c, decode);
      var present := IdSet(TargetsWith(c, cat, id, p, decode), EntityKey);
      var done := UpdatedAll(cat, rule, c, id, PresentIds(p.grouped_from, present));
      a.Ok?
      && a.value.c.lines == done.lines
      && a.value.c.ticket_use_perimeters == done.ticket_use_perimeters
      && a.value.c.vehicle_journeys == done.vehicle_journeys
  {
    var id := Check(p, IdKey(cat)).value;
    var t := TargetsWith(c, cat, id, p, decode);
    var c1 := WithTargets(c, cat, t);
    AppliedIs(cat, rule, p, c, decode);
    RegroupedRefs(cat, rule, c1, id, p.grouped_from, IdSet(t, EntityKey));
    UpdatedAllRefs(cat, rule, c, c1, id, PresentIds(p.grouped_from, IdSet(t, EntityKey)));
  }

  /** Applying one rule, on its own category: the target exists afterwards, an absent one
    * having been built and pushed before any repointing; if something was repointed,
    * exactly the records whose id is grouped are removed, and otherwise nothing is. */
  lemma AppliedTargets(cat: Category, rule: ObjectRule, p: ObjectProperties, c: Collections, decode: Decoder)
    requires Check(p, IdKey(cat)).Ok?
    requires Check(p, IdKey(cat)).value in IdSet(Targets(c, cat), EntityKey) || decode(p.properties).Ok?
    ensures var id := Check(p, IdKey(cat)).value;
      var a := Applied(cat, rule, p, c, decode);
      var t := TargetsWith(c, cat, id, p, decode);
      var changed := Repoints(cat, rule, p.grouped_from, IdSet(t, EntityKey));
      a.Ok? && id in IdSet(t, EntityKey)
      && Targets(a.value.c, cat) == (if changed then Retain(t, NotGrouped(p.grouped_from)) else t)
  {
    var id := Check(p, IdKey(cat)).value;
    var t := TargetsWith(c, cat, id, p, decode);
    var c1 := WithTargets(c, cat, t);
    AppliedIs(cat, rule, p, c, decode);
    RegroupedChanged(cat, rule, c1, id, p.grouped_from, IdSet(t, EntityKey));
    RegroupedErrors(cat, rule, c1, id, p.grouped_from, IdSet(t, EntityKey));
    var st := Regrouped(cat, rule, c1, id, p.grouped_from, IdSet(t, EntityKey));
    TargetsKept(c1, st.c, cat);
    FinishedTargets(cat, p.grouped_from, id, id !in IdSet(Targets(c, cat), EntityKey), st, t);
  }

  /** The rows one rule files: an ObjectNotFound error per missing grouped id, in order;
    * then, if nothing was repointed, an UnknownPropertyValue warning for a created target
    * or an ObjectNotFound error for a pre-existing one. */
  lemma AppliedRows(cat: Category, rule: ObjectRule, p: ObjectProperties, c: Collections, decode: Decoder)
    requires Check(p, IdKey(cat)).Ok?
    requires Check(p, IdKey(cat)).value in IdSet(Targets(c, cat), EntityKey) || decode(p.properties).Ok?
    ensures var id := Check(p, IdKey(cat)).value;
      var created := id !in IdSet(Targets(c, cat), EntityKey);
      var a := Applied(cat, rule, p, c, decode);
      var present := IdSet(TargetsWith(c, cat, id, p, decode), EntityKey);
      var changed := Repoints(cat, rule, p.grouped_from, present);
      a.Ok?
      && a.value.warnings == (if !changed && created then [Report.ReportRow(UnknownPropertyValue, CreatedMessage(IdKey(cat), id))] else [])
      && a.value.errors == NotFoundRows(Retain(p.grouped_from, Absent(present)), id)
           + (if !changed && !created then [Report.ReportRow(ObjectNotFound, NotAppliedMessage(IdKey(cat), id))] else [])
  {
    var id := Check(p, IdKey(cat)).value;
    var t := TargetsWith(c, cat, id, p, decode);
    var c1 := WithTargets(c, cat, t);
    AppliedIs(cat, rule, p, c, decode);
    RegroupedChanged(cat, rule, c1, id, p.grouped_from, IdSet(t, EntityKey));
    RegroupedErrors(cat, rule, c1, id, p.grouped_from, IdSet(t, EntityKey));
    var st := Regrouped(cat, rule, c1, id, p.grouped_from, IdSet(t, EntityKey));
    FinishedRows(cat, p.grouped_from, id, id !in IdSet(Targets(c, cat), EntityKey), st);
  }

  lemma TargetsKept(c: Collections, d: Collections, cat: Category)
    requires SameTargets(d, c)
    ensures Targets(d, cat) == Targets(c, cat)
  {
  }

  lemma FinishedTargets(cat: Category, grouped: seq<string>, id: string, created: bool, st: Regrouping, t: seq<Entity>)
    requires Targets(st.c, cat) == t
    ensures Targets(Finished(cat, grouped, id, created, st).c, cat) == (if st.changed then Retain(t, NotGrouped(grouped)) else t)
  {
  }

  lemma FinishedRows(cat: Category, grouped: seq<string>, id: string, created: bool, st: Regrouping)
    ensures var o := Finished(cat, grouped, id, created, st);
      o.warnings == (if !st.changed && created then [Report.ReportRow(UnknownPropertyValue, CreatedMessage(IdKey(cat), id))] else [])
      && o.errors == st.errors + (if !st.changed && !created then [Report.ReportRow(ObjectNotFound, NotAppliedMessage(IdKey(cat), id))] else [])
  {
    var o := Finished(cat, grouped, id, created, st);
    if st.changed {
      assert o.warnings == [] && o.errors == st.errors;
    } else if created {
      assert o.errors == st.errors;
    }
  }

  /** Once the configuration has been accepted, a rule never groups its own target, so the
    * target survives the removal of the grouped records. */
  lemma TargetKept(cat: Category, t: seq<Entity>, id: string, grouped: seq<string>)
    requires id in IdSet(t, EntityKey) && id !in grouped
    ensures id in IdSet(Retain(t, NotGrouped(grouped)), EntityKey)
  {
    var i :| 0 <= i < |t| && t[i].id == id;
    assert NotGrouped(grouped)(t[i]);
    var r := Retain(t, NotGrouped(grouped));
    var j :| 0 <= j < |r| && r[j] == t[i];
  }

  /** `f` applied to each outcome of a category's rules in turn, starting from `c`. */
  function AppliedAll(cat: Category, rule: ObjectRule, ps: seq<ObjectProperties>, c: Collections, decode: Decoder): (r: Result<Outcome, string>)
    ensures r.Ok? ==> SameSizes(r.value.c, c)
    decreases |ps|
  {
    if ps == [] then Ok(Outcome(c, [], []))
    else
      var o :- Applied(cat, rule, ps[0], c, decode);
      var rest :- AppliedAll(cat, rule, ps[1..], o.c, decode);
      Ok(Outcome(rest.c, o.warnings + rest.warnings, o.errors + rest.errors))
  }

  /** Rows `w` and `e` filed before `r`. */
  function After(w: seq<Row>, e: seq<Row>, r: Result<Outcome, string>): Result<Outcome, string>
  {
    match r
    case Ok(o) => Ok(Outcome(o.c, w + o.warnings, e + o.errors))
    case Err(msg) => Err(msg)
  }

  lemma AfterNothing(r: Result<Outcome, string>)
    ensures After([], [], r) == r
  {
    if r.Ok? {
      assert [] + r.value.warnings == r.value.warnings && [] + r.value.errors == r.value.errors;
    }
  }

  lemma AfterStep(cat: Category, rule: ObjectRule, ps: seq<ObjectProperties>, i: nat, d: Collections,
                  ws: seq<Row>, es: seq<Row>, decode: Decoder)
    requires i < |ps|
    ensures var a := Applied(cat, rule, ps[i], d, decode);
      (a.Err? ==> After(ws, es, AppliedAll(cat, rule, ps[i..], d, decode)) == Err(a.error))
      && (a.Ok? ==>
            After(ws, es, AppliedAll(cat, rule, ps[i..], d, decode))
            == After(ws + a.value.warnings, es + a.value.errors, AppliedAll(cat, rule, ps[i + 1..], a.value.c, decode)))
  {
    var rest := ps[i..];
    assert rest[0] == ps[i] && rest[1..] == ps[i + 1..];
    AppliedAllCons(cat, rule, rest, d, decode);
    var a := Applied(cat, rule, ps[i], d, decode);
    if a.Ok? {
      AfterAssoc(ws, es, a.value.warnings, a.value.errors, AppliedAll(cat, rule, ps[i + 1..], a.value.c, decode));
    }
  }

  lemma AppliedAllCons(cat: Category, rule: ObjectRule, ps: seq<ObjectProperties>, d: Collections, decode: Decoder)
    requires ps != []
    ensures var a := Applied(cat, rule, ps[0], d, decode);
      AppliedAll(cat, rule, ps, d, decode)
      == if a.Err? then Err(a.error) else After(a.value.warnings, a.value.errors, AppliedAll(cat, rule, ps[1..], a.value.c, decode))
  {
  }

  lemma AfterAssoc(ws: seq<Row>, es: seq<Row>, w: seq<Row>, e: seq<Row>, r: Result<Outcome, string>)
    ensures After(ws, es, After(w, e, r)) == After(ws + w, es + e, r)
  {
    if r.Ok? {
      assert (ws + w) + r.value.warnings == ws + (w + r.value.warnings);
      assert (es + e) + r.value.errors == es + (e + r.value.errors);
    }
  }

  /** The loop over one category's rules; the first failing rule aborts. */
  method ApplyCategory(cat: Category, rule: ObjectRule, ps: seq<ObjectProperties>, c: Collections, decode: Decoder,
                       report: Report.Report<ReportCategory>)
    returns (r: Result<Collections, string>)
    requires Fits(rule, c)
    modifies report
    ensures var a := AppliedAll(cat, rule, ps, c, decode);
      r.Ok? == a.Ok?
      && (r.Ok? ==>
            r.value == a.value.c
            && report.warnings == Report.RecordAll(old(report.warnings), a.value.warnings)
            && report.errors == Report.RecordAll(old(report.errors), a.value.errors))
      && (r.Err? ==> r.error == a.error)
  {
    var d := c;
    ghost var ws: seq<Row> := [];
    ghost var es: seq<Row> := [];
    var i := 0;
    assert ps[i..] == ps;
    AfterNothing(AppliedAll(cat, rule, ps, c, decode));
    while i < |ps|
      invariant 0 <= i <= |ps|
      invariant AppliedAll(cat, rule, ps, c, decode) == After(ws, es, AppliedAll(cat, rule, ps[i..], d, decode))
      invariant SameSizes(d, c)
      invariant report.warnings == Report.RecordAll(old(report.warnings), ws)
      invariant report.errors == Report.RecordAll(old(report.errors), es)
    {
      var step := Apply(cat, rule, ps[i], d, decode, report);
      AfterStep(cat, rule, ps, i, d, ws, es, decode);
      if step.Err? {
        return Err(step.error);
      }
      var o := Applied(cat, rule, ps[i], d, decode).value;
      Report.RecordAllConcat(old(report.warnings), ws, o.warnings);
      Report.RecordAllConcat(old(report.errors), es, o.errors);
      ws := ws + o.warnings;
      es := es + o.errors;
      d := step.value;
      i := i + 1;
    }
    assert ps[i..] == [];
    assert ws + [] == ws && es + [] == es;
    r := Ok(d);
  }

  /** What `ObjectRule::apply_rules` computes: the network rules, then the commercial-mode
    * rules, then the physical-mode rules, each category only when it has rules. */
  function AppliedRules(rule: ObjectRule, c: Collections, decode: Decoder): Result<Outcome, string>
  {
    var cfg := rule.configuration;
    var o1 :-
      if cfg.networks_rules.Some? && rule.lines_by_network.Some? && rule.ticket_use_perimeters_by_network.Some?
      then AppliedAll(Networks, rule, cfg.networks_rules.value, c, decode)
      else Ok(Outcome(c, [], []));
    var o2 :-
      if cfg.commercial_modes_rules.Some? && rule.lines_by_commercial_mode.Some?
      then AppliedAll(CommercialModes, rule, cfg.commercial_modes_rules.value, o1.c, decode)
      else Ok(Outcome(o1.c, [], []));
    var o3 :-
      if cfg.physical_modes_rules.Some? && rule.vjs_by_physical_mode.Some?
      then AppliedAll(PhysicalModes, rule, cfg.physical_modes_rules.value, o2.c, decode)
      else Ok(Outcome(o2.c, [], []));
    Ok(Outcome(o3.c, o1.warnings + o2.warnings + o3.warnings, o1.errors + o2.errors + o3.errors))
  }

  /** `ObjectRule::apply_rules`. */
  method ApplyRules(rule: ObjectRule, c: Collections, decode: Decoder, report: Report.Report<ReportCategory>)
    returns (r: Result<Collections, string>)
    requires Fits(rule, c)
    modifies report
    ensures var a := AppliedRules(rule, c, decode);
      r.Ok? == a.Ok?
      && (r.Ok? ==>
            r.value == a.value.c
            && report.warnings == Report.RecordAll(old(report.warnings), a.value.warnings)
            && report.errors == Report.RecordAll(old(report.errors), a.value.errors))
      && (r.Err? ==> r.error == a.error)
  {
    var cfg := rule.configuration;
    var d := c;
    ghost var o1 := Outcome(c, [], []);
    if cfg.networks_rules.Some? && rule.lines_by_network.Some? && rule.ticket_use_perimeters_by_network.Some? {
      var n := ApplyCategory(Networks, rule, cfg.networks_rules.value, d, decode, report);
      if n.Err? {
        return Err(n.error);
      }
      d := n.value;
      o1 := AppliedAll(Networks, rule, cfg.networks_rules.value, c, decode).value;
    }
    ghost var w1 := report.warnings;
    ghost var e1 := report.errors;
    ghost var o2 := Outcome(d, [], []);
    if cfg.commercial_modes_rules.Some? && rule.lines_by_commercial_mode.Some? {
      var m := ApplyCategory(CommercialModes, rule, cfg.commercial_modes_rules.value, d, decode, report);
      if m.Err? {
        return Err(m.error);
      }
      o2 := AppliedAll(CommercialModes, rule, cfg.commercial_modes_rules.value, d, decode).value;
      d := m.value;
    }
    Report.RecordAllConcat(old(report.warnings), o1.warnings, o2.warnings);
    Report.RecordAllConcat(old(report.errors), o1.errors, o2.errors);
    ghost var o3 := Outcome(d, [], []);
    if cfg.physical_modes_rules.Some? && rule.vjs_by_physical_mode.Some? {
      var v := ApplyCategory(PhysicalModes, rule, cfg.physical_modes_rules.value, d, decode, report);
      if v.Err? {
        return Err(v.error);
      }
      o3 := AppliedAll(PhysicalModes, rule, cfg.physical_modes_rules.value, d, decode).value;
      d := v.value;
    }
    Report.RecordAllConcat(old(report.warnings), o1.warnings + o2.warnings, o3.warnings);
    Report.RecordAllConcat(old(report.errors), o1.errors + o2.errors, o3.errors);
    r := Ok(d);
  }

  /** The object-rule part of `apply_rules` (apply-rules/src/apply_rules/mod.rs): the rule
    * is built from the unmodified model, then applied to its collections. */
  function Ran(config: Configuration, c: Collections, decode: Decoder): Result<Outcome, string>
  {
    var rule :- Built(config, c);
    AppliedRules(rule, c, decode)
  }

  method Run(config: Configuration, c: Collections, decode: Decoder, report: Report.Report<ReportCategory>)
    returns (r: Result<Collections, string>)
    modifies report
    ensures var a := Ran(config, c, decode);
      r.Ok? == a.Ok?
      && (r.Ok? ==>
            r.value == a.value.c
            && report.warnings == Report.RecordAll(old(report.warnings), a.value.warnings)
            && report.errors == Report.RecordAll(old(report.errors), a.value.errors))
      && (r.Err? ==> r.error == a.error)
    ensures ConfigurationChecked(config).Err? ==>
      r == Err(ConfigurationChecked(config).error) && report.warnings == old(report.warnings) && report.errors == old(report.errors)
  {
    var built := New(config, c);
    if built.Err? {
      return Err(built.error);
    }
    BuiltFits(config, c);
    r := ApplyRules(built.value, c, decode, report);
  }
}
