/** The classification of OpenStreetMap objects into points of interest (osm-utils/src/poi.rs).
  * A configuration lists the POI types and the rules; a rule names a type and the tags an
  * object must carry to be of that type. The configuration is checked when it is loaded, and
  * an object's type is the one named by the first rule it satisfies. */
module OsmPoi {
  import opened Wrappers
  import opened IdCollection
  import opened Ordering
  import Strings

  datatype PoiType = PoiType(id: string, name: string)
  datatype TagFilter = TagFilter(key: string, value: string)
  datatype Rule = Rule(osm_tags_filters: seq<TagFilter>, poi_type_id: string)
  datatype PoiConfig = PoiConfig(poi_types: seq<PoiType>, rules: seq<Rule>)
  datatype Property = Property(key: string, value: string)

  /** The tags of an OSM object: a value per key. */
  type Tags = map<string, string>

  function PoiTypeKey(t: PoiType): string { t.id }

  // ----- Classification -----

  /** Every filter of the rule finds its key among the tags with exactly its value. */
  predicate Matches(rule: Rule, tags: Tags)
  {
    forall f :: f in rule.osm_tags_filters ==> f.key in tags && tags[f.key] == f.value
  }

  /** `find` over the rules: the position of the first rule the tags satisfy. */
  function FirstMatch(rules: seq<Rule>, tags: Tags): (r: Option<nat>)
    ensures r.Some? ==> r.value < |rules| && Matches(rules[r.value], tags)
    ensures r.Some? ==> forall k :: 0 <= k < r.value ==> !Matches(rules[k], tags)
    ensures r.None? <==> forall k :: 0 <= k < |rules| ==> !Matches(rules[k], tags)
  {
    if rules == [] then None
    else if Matches(rules[0], tags) then Some(0)
    else
      match FirstMatch(rules[1..], tags)
      case None =>
        assert forall k :: 1 <= k < |rules| ==> rules[k] == rules[1..][k - 1];
        None
      case Some(k) =>
        assert forall j :: 1 <= j <= k ==> rules[j] == rules[1..][j - 1];
        Some(k + 1)
  }

  /** `get_poi_type`: the type named by the first rule the tags satisfy, looked up among the
    * types by id. */
  function GetPoiType(config: PoiConfig, tags: Tags): Option<PoiType>
  {
    match FirstMatch(config.rules, tags)
    case None => None
    case Some(k) =>
      match GetIdx(config.poi_types, PoiTypeKey, config.rules[k].poi_type_id)
      case None => None
      case Some(i) => Some(config.poi_types[i])
  }

  /** `is_poi`: the tags have a type. */
  function IsPoi(config: PoiConfig, tags: Tags): (r: bool)
    ensures r <==> GetPoiType(config, tags).Some?
    ensures r ==> exists k :: 0 <= k < |config.rules| && Matches(config.rules[k], tags)
  {
    GetPoiType(config, tags).Some?
  }

  /** `get_poi_id`: the id of the type of the tags. */
  function GetPoiId(config: PoiConfig, tags: Tags): (r: Option<string>)
    ensures r.Some? <==> IsPoi(config, tags)
    ensures r.Some? ==> r.value in IdSet(config.poi_types, PoiTypeKey)
    ensures r.Some? ==> r.value == config.rules[FirstMatch(config.rules, tags).value].poi_type_id
  {
    match GetPoiType(config, tags)
    case None => None
    case Some(t) => Some(t.id)
  }

  /** For a configuration that passed the check, the tags have a type exactly when some rule
    * matches them, and the type is the one, among the types, named by the first such rule. */
  lemma ValidPoiType(config: PoiConfig, tags: Tags)
    requires Valid(config)
    ensures GetPoiType(config, tags).Some? <==> exists k :: 0 <= k < |config.rules| && Matches(config.rules[k], tags)
    ensures GetPoiType(config, tags).Some? ==>
      exists k :: 0 <= k < |config.rules| && Matches(config.rules[k], tags)
        && (forall j :: 0 <= j < k ==> !Matches(config.rules[j], tags))
        && GetPoiType(config, tags).value in config.poi_types
        && GetPoiType(config, tags).value.id == config.rules[k].poi_type_id
  {
    var m := FirstMatch(config.rules, tags);
    if m.Some? {
      assert config.rules[m.value].poi_type_id in IdSet(config.poi_types, PoiTypeKey);
    }
  }

  // ----- check -----

  function DuplicateTypeMessage(id: string): string
  {
    "poi_type_id " + Strings.Quoted(id) + " present several times"
  }

  function UnknownTypeMessage(id: string): string
  {
    "no poi type associated to rule " + Strings.Quoted(id)
  }

  function MissingRuleMessage(id: string): string
  {
    "no rule associated to poi_type_id " + Strings.Quoted(id)
  }

  /** The first type id that repeats an earlier one. */
  function RepeatedType(types: seq<PoiType>): Option<string>
    decreases |types|
  {
    if types == [] then None
    else
      var front := types[..|types| - 1];
      var last := types[|types| - 1];
      match RepeatedType(front)
      case Some(id) => Some(id)
      case None => if last.id in IdSet(front, PoiTypeKey) then Some(last.id) else None
  }

  /** The type id of the first rule that names no type in `ids`. */
  function UnknownType(rules: seq<Rule>, ids: set<string>): Option<string>
    decreases |rules|
  {
    if rules == [] then None
    else
      match UnknownType(rules[..|rules| - 1], ids)
      case Some(id) => Some(id)
      case None => if rules[|rules| - 1].poi_type_id !in ids then Some(rules[|rules| - 1].poi_type_id) else None
  }

  /** The id of the first type that no rule in `ruled` names. */
  function MissingRule(types: seq<PoiType>, ruled: set<string>): Option<string>
    decreases |types|
  {
    if types == [] then None
    else
      match MissingRule(types[..|types| - 1], ruled)
      case Some(id) => Some(id)
      case None => if types[|types| - 1].id !in ruled then Some(types[|types| - 1].id) else None
  }

  /** The type ids the rules name. */
  function RuledIds(rules: seq<Rule>): set<string>
  {
    set i | 0 <= i < |rules| :: rules[i].poi_type_id
  }

  /** The outcome of `check`: the types are checked for repeated ids, then each rule for a
    * known type, then each type for a rule, the first failure being reported. */
  function Checked(config: PoiConfig): Result<(), string>
  {
    match RepeatedType(config.poi_types)
    case Some(id) => Err(DuplicateTypeMessage(id))
    case None =>
      match UnknownType(config.rules, IdSet(config.poi_types, PoiTypeKey))
      case Some(id) => Err(UnknownTypeMessage(id))
      case None =>
        match MissingRule(config.poi_types, RuledIds(config.rules))
        case Some(id) => Err(MissingRuleMessage(id))
        case None => Ok(())
  }

  /** A well-formed configuration: distinct type ids, every rule names a type and every type
    * has a rule. */
  predicate Valid(config: PoiConfig)
  {
    UniqueIds(config.poi_types, PoiTypeKey)
    && (forall k :: 0 <= k < |config.rules| ==> config.rules[k].poi_type_id in IdSet(config.poi_types, PoiTypeKey))
    && (forall i :: 0 <= i < |config.poi_types| ==> config.poi_types[i].id in RuledIds(config.rules))
  }

  /** There is a repeated id exactly when the ids are not distinct, and the one reported does
    * repeat an earlier type's. */
  lemma {:induction false} RepeatedTypeSpec(types: seq<PoiType>)
    ensures RepeatedType(types).None? <==> UniqueIds(types, PoiTypeKey)
    ensures RepeatedType(types).Some? ==>
      exists j :: 0 <= j < |types| && types[j].id == RepeatedType(types).value && types[j].id in IdSet(types[..j], PoiTypeKey)
    decreases |types|
  {
    if types != [] {
      var front := types[..|types| - 1];
      var n := |types| - 1;
      RepeatedTypeSpec(front);
      UniqueIdsSnoc(front, PoiTypeKey, types[n]);
      assert types == front + [types[n]];
      if RepeatedType(front).Some? {
        var j :| 0 <= j < |front| && front[j].id == RepeatedType(front).value && front[j].id in IdSet(front[..j], PoiTypeKey);
        assert types[j] == front[j] && types[..j] == front[..j];
      } else {
        assert types[..n] == front;
      }
    }
  }

  /** There is an unknown type exactly when some rule names an id outside `ids`, and the one
    * reported is such an id. */
  lemma {:induction false} UnknownTypeSpec(rules: seq<Rule>, ids: set<string>)
    ensures UnknownType(rules, ids).None? <==> forall k :: 0 <= k < |rules| ==> rules[k].poi_type_id in ids
    ensures UnknownType(rules, ids).Some? ==>
      UnknownType(rules, ids).value !in ids && UnknownType(rules, ids).value in RuledIds(rules)
    decreases |rules|
  {
    if rules != [] {
      var front := rules[..|rules| - 1];
      UnknownTypeSpec(front, ids);
      assert forall k :: 0 <= k < |front| ==> front[k] == rules[k];
      if UnknownType(front, ids).Some? {
        var k :| 0 <= k < |front| && front[k].poi_type_id == UnknownType(front, ids).value;
        assert rules[k] == front[k];
      }
    }
  }

  /** There is a type without rule exactly when some type's id is outside `ruled`, and the
    * one reported is such a type's id. */
  lemma {:induction false} MissingRuleSpec(types: seq<PoiType>, ruled: set<string>)
    ensures MissingRule(types, ruled).None? <==> forall i :: 0 <= i < |types| ==> types[i].id in ruled
    ensures MissingRule(types, ruled).Some? ==>
      MissingRule(types, ruled).value !in ruled && MissingRule(types, ruled).value in IdSet(types, PoiTypeKey)
    decreases |types|
  {
    if types != [] {
      var front := types[..|types| - 1];
      MissingRuleSpec(front, ruled);
      assert forall i :: 0 <= i < |front| ==> front[i] == types[i];
      if MissingRule(front, ruled).Some? {
        var i :| 0 <= i < |front| && front[i].id == MissingRule(front, ruled).value;
        assert types[i] == front[i];
      }
    }
  }

  /** `check` accepts exactly the well-formed configurations. */
  lemma CheckedSpec(config: PoiConfig)
    ensures Checked(config).Ok? <==> Valid(config)
  {
    RepeatedTypeSpec(config.poi_types);
    UnknownTypeSpec(config.rules, IdSet(config.poi_types, PoiTypeKey));
    MissingRuleSpec(config.poi_types, RuledIds(config.rules));
  }

  /** Each failure names an id that is at fault: a type id that repeats, a rule's type that
    * does not exist, or a type that no rule names. */
  lemma CheckedErrors(config: PoiConfig)
    ensures Checked(config).Err? ==>
      (exists j :: 0 <= j < |config.poi_types|
                   && config.poi_types[j].id in IdSet(config.poi_types[..j], PoiTypeKey)
                   && Checked(config).error == DuplicateTypeMessage(config.poi_types[j].id))
      || (exists k :: 0 <= k < |config.rules|
                      && config.rules[k].poi_type_id !in IdSet(config.poi_types, PoiTypeKey)
                      && Checked(config).error == UnknownTypeMessage(config.rules[k].poi_type_id))
      || (exists i :: 0 <= i < |config.poi_types|
                      && config.poi_types[i].id !in RuledIds(config.rules)
                      && Checked(config).error == MissingRuleMessage(config.poi_types[i].id))
  {
    RepeatedTypeSpec(config.poi_types);
    UnknownTypeSpec(config.rules, IdSet(config.poi_types, PoiTypeKey));
    MissingRuleSpec(config.poi_types, RuledIds(config.rules));
  }

  /** An empty configuration passes; one with a type and no rule does not. */
  lemma CheckedExamples(t: PoiType)
    ensures Checked(PoiConfig([], [])) == Ok(())
    ensures Checked(PoiConfig([t], [])) == Err(MissingRuleMessage(t.id))
  {
    assert [t][..0] == [];
  }

  /** Two rules may name the same type. */
  lemma SharedTypeAccepted()
    ensures Checked(PoiConfig([PoiType("amenity:public_building", "Public building")],
      [Rule([TagFilter("building", "public")], "amenity:public_building"),
       Rule([TagFilter("amenity", "public_building")], "amenity:public_building")])).Ok?
  {
    var config := PoiConfig([PoiType("amenity:public_building", "Public building")],
      [Rule([TagFilter("building", "public")], "amenity:public_building"),
       Rule([TagFilter("amenity", "public_building")], "amenity:public_building")]);
    assert config.rules[0].poi_type_id in RuledIds(config.rules);
    CheckedSpec(config);
  }

  lemma {:induction false} RepeatedTypeStopped(types: seq<PoiType>, n: nat)
    requires n <= |types| && RepeatedType(types[..n]).Some?
    ensures RepeatedType(types) == RepeatedType(types[..n])
    decreases |types|
  {
    if n < |types| {
      assert types[..|types| - 1][..n] == types[..n];
      RepeatedTypeStopped(types[..|types| - 1], n);
    } else {
      assert types[..n] == types;
    }
  }

  lemma {:induction false} UnknownTypeStopped(rules: seq<Rule>, ids: set<string>, n: nat)
    requires n <= |rules| && UnknownType(rules[..n], ids).Some?
    ensures UnknownType(rules, ids) == UnknownType(rules[..n], ids)
    decreases |rules|
  {
    if n < |rules| {
      assert rules[..|rules| - 1][..n] == rules[..n];
      UnknownTypeStopped(rules[..|rules| - 1], ids, n);
    } else {
      assert rules[..n] == rules;
    }
  }

  lemma {:induction false} MissingRuleStopped(types: seq<PoiType>, ruled: set<string>, n: nat)
    requires n <= |types| && MissingRule(types[..n], ruled).Some?
    ensures MissingRule(types, ruled) == MissingRule(types[..n], ruled)
    decreases |types|
  {
    if n < |types| {
      assert types[..|types| - 1][..n] == types[..n];
      MissingRuleStopped(types[..|types| - 1], ruled, n);
    } else {
      assert types[..n] == types;
    }
  }

  /** The first loop of `check`: collects the type ids, failing on a repeated one. */
  method CheckTypes(types: seq<PoiType>) returns (repeated: Option<string>, ids: set<string>)
    ensures repeated == RepeatedType(types)
    ensures repeated.None? ==> ids == IdSet(types, PoiTypeKey)
  {
    ids := {};
    for k := 0 to |types|
      invariant ids == IdSet(types[..k], PoiTypeKey)
      invariant RepeatedType(types[..k]).None?
    {
      assert types[..k + 1][..k] == types[..k];
      if types[k].id in ids {
        RepeatedTypeStopped(types, k + 1);
        return Some(types[k].id), ids;
      }
      IdSetAppend(types[..k], [types[k]], PoiTypeKey);
      assert types[..k + 1] == types[..k] + [types[k]];
      ids := ids + {types[k].id};
    }
    assert types[..|types|] == types;
    repeated := None;
  }

  /** The second loop of `check`: collects the types the rules name, failing on an unknown one. */
  method CheckRules(rules: seq<Rule>, ids: set<string>) returns (unknown: Option<string>, ruled: set<string>)
    ensures unknown == UnknownType(rules, ids)
    ensures unknown.None? ==> ruled == RuledIds(rules)
  {
    ruled := {};
    for k := 0 to |rules|
      invariant ruled == RuledIds(rules[..k])
      invariant UnknownType(rules[..k], ids).None?
    {
      assert rules[..k + 1][..k] == rules[..k];
      ruled := ruled + {rules[k].poi_type_id};
      assert RuledIds(rules[..k + 1]) == RuledIds(rules[..k]) + {rules[k].poi_type_id} by {
        assert forall i :: 0 <= i < k ==> rules[..k + 1][i] == rules[..k][i];
      }
      if rules[k].poi_type_id !in ids {
        UnknownTypeStopped(rules, ids, k + 1);
        return Some(rules[k].poi_type_id), ruled;
      }
    }
    assert rules[..|rules|] == rules;
    unknown := None;
  }

  /** The third loop of `check`: finds a type no rule names. */
  method CheckRuled(types: seq<PoiType>, ruled: set<string>) returns (missing: Option<string>)
    ensures missing == MissingRule(types, ruled)
  {
    for k := 0 to |types|
      invariant MissingRule(types[..k], ruled).None?
    {
      assert types[..k + 1][..k] == types[..k];
      if types[k].id !in ruled {
        MissingRuleStopped(types, ruled, k + 1);
        return Some(types[k].id);
      }
    }
    assert types[..|types|] == types;
    missing := None;
  }

  /** `check`. */
  method Check(config: PoiConfig) returns (r: Result<(), string>)
    ensures r == Checked(config)
  {
    var repeated, ids := CheckTypes(config.poi_types);
    if repeated.Some? {
      return Err(DuplicateTypeMessage(repeated.value));
    }
    var unknown, ruled := CheckRules(config.rules, ids);
    if unknown.Some? {
      return Err(UnknownTypeMessage(unknown.value));
    }
    var missing := CheckRuled(config.poi_types, ruled);
    if missing.Some? {
      return Err(MissingRuleMessage(missing.value));
    }
    r := Ok(());
  }

  // ----- Properties and ids -----

  /** `make_properties`: one property per tag, in ascending key order as the tag map iterates. */
  function MakeProperties(tags: Tags): (r: seq<Property>)
    ensures |r| == |tags|
    ensures forall i :: 0 <= i < |r| ==> r[i].key in tags && r[i].value == tags[r[i].key]
    ensures forall key :: key in tags ==> Property(key, tags[key]) in r
    ensures forall i, j :: 0 <= i < j < |r| ==> StringBelow(r[i].key, r[j].key)
  {
    var keys := SortedStrings(tags.Keys);
    var r := seq(|keys|, i requires 0 <= i < |keys| => Property(keys[i], tags[keys[i]]));
    PropertiesInKeyOrder(tags, keys, r);
    r
  }

  lemma PropertiesInKeyOrder(tags: Tags, keys: seq<string>, r: seq<Property>)
    requires keys == SortedStrings(tags.Keys)
    requires |r| == |keys| && forall i :: 0 <= i < |keys| ==> r[i] == Property(keys[i], tags[keys[i]])
    ensures |r| == |tags|
    ensures forall key :: key in tags ==> Property(key, tags[key]) in r
    ensures forall i, j :: 0 <= i < j < |r| ==> StringBelow(r[i].key, r[j].key)
  {
    SortedStringsAscending(tags.Keys);
    forall key | key in tags ensures Property(key, tags[key]) in r {
      var i :| 0 <= i < |keys| && keys[i] == key;
      assert r[i] == Property(key, tags[key]);
    }
    assert |tags.Keys| == |tags|;
  }

  /** `format_poi_id`: "osm:", the OSM object kind, ':' and the object's number. */
  function FormatPoiId(osm_type: string, id: int): string
  {
    "osm:" + osm_type + ":" + Strings.IntToString(id)
  }

  /** Two objects get the same POI id only if they are the same object, as long as the kinds
    * contain no ':' (they are "node", "way" and "relation"). */
  lemma FormatPoiIdInjective(t1: string, id1: int, t2: string, id2: int)
    requires ':' !in t1 && ':' !in t2
    requires FormatPoiId(t1, id1) == FormatPoiId(t2, id2)
    ensures t1 == t2 && id1 == id2
  {
    var s1 := Strings.IntToString(id1);
    var s2 := Strings.IntToString(id2);
    assert FormatPoiId(t1, id1) == "osm:" + (t1 + [':'] + s1);
    assert FormatPoiId(t2, id2) == "osm:" + (t2 + [':'] + s2);
    assert t1 + [':'] + s1 == FormatPoiId(t1, id1)[4..];
    assert t2 + [':'] + s2 == FormatPoiId(t2, id2)[4..];
    Strings.SplitAtSeparator(t1, s1, t2, s2, ':');
    if id1 != id2 {
      Strings.IntToStringInjective(id1, id2);
    }
  }

  /** The first rule matching wins even when a later one matches too: tags satisfying both of
    * a two-filter rule and a one-filter rule after it get the first rule's type. */
  lemma FirstRuleWins()
    ensures GetPoiId(PoiConfig([PoiType("bob_titi", "Bob is Bobette and Titi is Toto"), PoiType("bob", "Bob is Bobette")],
      [Rule([TagFilter("bob", "bobette"), TagFilter("titi", "toto")], "bob_titi"),
       Rule([TagFilter("bob", "bobette")], "bob")]),
      map["bob" := "bobette", "titi" := "toto", "foo" := "bar"]) == Some("bob_titi")
    ensures GetPoiId(PoiConfig([PoiType("bob_titi", "Bob is Bobette and Titi is Toto"), PoiType("bob", "Bob is Bobette")],
      [Rule([TagFilter("bob", "bobette"), TagFilter("titi", "toto")], "bob_titi"),
       Rule([TagFilter("bob", "bobette")], "bob")]),
      map["bob" := "bobette", "titi" := "tata", "foo" := "bar"]) == Some("bob")
  {
    var types := [PoiType("bob_titi", "Bob is Bobette and Titi is Toto"), PoiType("bob", "Bob is Bobette")];
    var rules := [Rule([TagFilter("bob", "bobette"), TagFilter("titi", "toto")], "bob_titi"),
                  Rule([TagFilter("bob", "bobette")], "bob")];
    var both := map["bob" := "bobette", "titi" := "toto", "foo" := "bar"];
    var one := map["bob" := "bobette", "titi" := "tata", "foo" := "bar"];
    assert Matches(rules[0], both);
    assert !Matches(rules[0], one) by {
      assert TagFilter("titi", "toto") in rules[0].osm_tags_filters;
    }
    assert Matches(rules[1], one);
    assert FirstMatch(rules, one) == Some(1);
    assert types[..1] == [types[0]];
    assert GetIdx(types, PoiTypeKey, "bob") == Some(1) by {
      GetIdxOfMember(types, PoiTypeKey, 1);
    }
  }
}
