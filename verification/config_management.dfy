/** The system-configuration screen (components/ConfigManagement.tsx): the edit buffer
    seeded from the fetched configs, the change set sent on save, and the pure helpers
    that group, decorate and label each config. */
module ConfigManagement {
  import opened Basics
  import opened Text
  import opened Seqs

  /** One stored configuration entry. */
  datatype Config = Config(id: string, name: string, value: string, description: Option<string>)

  /** One entry of the bulk update. `value` is `None` when the edit buffer has no entry
      for the name (JavaScript sends `undefined`). */
  datatype ConfigUpdate = ConfigUpdate(name: string, value: Option<string>)

  /** The edit buffer: config name to the text currently in its input. */
  type Edits = map<string, string>

  // ---------------------------------------------------------------------------
  // Fetch: seeding the edit buffer
  // ---------------------------------------------------------------------------

  /** No config after position `i` has the same name: `configs[i]` is the last write
      to its name. */
  predicate LastWithName(configs: seq<Config>, i: int)
    requires 0 <= i < |configs|
  {
    forall j | i < j < |configs| :: configs[j].name != configs[i].name
  }

  /** The buffer `fetchConfig` builds: every config's value under its name, processed
      in list order, so a later config with the same name overwrites an earlier one. */
  function InitialValues(configs: seq<Config>): (m: Edits)
    ensures forall c | c in configs :: c.name in m
    ensures forall n | n in m :: exists c | c in configs :: c.name == n
    decreases |configs|
  {
    if |configs| == 0 then map[]
    else
      var last := configs[|configs| - 1];
      InitialValues(configs[..|configs| - 1])[last.name := last.value]
  }

  /** The last write wins: a name holds the value of the last config carrying it. */
  lemma {:induction false} InitialValuesLastWins(configs: seq<Config>, i: int)
    requires 0 <= i < |configs| && LastWithName(configs, i)
    ensures configs[i].name in InitialValues(configs)
    ensures InitialValues(configs)[configs[i].name] == configs[i].value
    decreases |configs|
  {
    var n := |configs| - 1;
    var init, last, name := configs[..n], configs[n], configs[i].name;
    var m := InitialValues(init)[last.name := last.value];
    assert InitialValues(configs) == m;
    if i < n {
      LastWithNameInPrefix(configs, i);
      InitialValuesLastWins(init, i);
      assert m[name] == InitialValues(init)[name];
    }
  }

  /** A last write before the final config is still the last write once that config is
      dropped, and the final config carries a different name. */
  lemma LastWithNameInPrefix(configs: seq<Config>, i: int)
    requires 0 <= i < |configs| - 1 && LastWithName(configs, i)
    ensures configs[..|configs| - 1][i] == configs[i]
    ensures LastWithName(configs[..|configs| - 1], i)
    ensures configs[|configs| - 1].name != configs[i].name
  {
  }

  /** Configs that share a name also share a value (trivially true when names are unique). */
  predicate NamesDetermineValues(configs: seq<Config>) {
    forall i, j | 0 <= i < |configs| && 0 <= j < |configs| && configs[i].name == configs[j].name ::
      configs[i].value == configs[j].value
  }

  /** Right after a fetch the buffer shows every config's stored value exactly when
      configs sharing a name share a value; otherwise the last duplicate's value hides
      the others. */
  lemma {:induction false} FetchedEditsMatchStored(configs: seq<Config>)
    ensures NamesDetermineValues(configs) <==>
              forall c | c in configs :: Lookup(InitialValues(configs), c.name) == Some(c.value)
    decreases |configs|
  {
    var m := InitialValues(configs);
    if NamesDetermineValues(configs) && |configs| > 0 {
      var init := configs[..|configs| - 1];
      var last := configs[|configs| - 1];
      assert NamesDetermineValues(init) by {
        forall i, j | 0 <= i < |init| && 0 <= j < |init| && init[i].name == init[j].name
          ensures init[i].value == init[j].value
        {
          assert init[i] == configs[i] && init[j] == configs[j];
        }
      }
      FetchedEditsMatchStored(init);
      forall c | c in configs
        ensures Lookup(m, c.name) == Some(c.value)
      {
        var i :| 0 <= i < |configs| && configs[i] == c;
        if c.name != last.name {
          assert i < |configs| - 1 && c in init;
        } else {
          assert configs[|configs| - 1] == last;
        }
      }
    }
    if forall c | c in configs :: Lookup(m, c.name) == Some(c.value) {
      forall i, j | 0 <= i < |configs| && 0 <= j < |configs| && configs[i].name == configs[j].name
        ensures configs[i].value == configs[j].value
      {
        assert Lookup(m, configs[i].name) == Some(configs[i].value);
        assert Lookup(m, configs[j].name) == Some(configs[j].value);
      }
    }
  }

  // ---------------------------------------------------------------------------
  // Editing and saving
  // ---------------------------------------------------------------------------

  /** `handleChange(name, value)`: the input for `name` now shows `value`. */
  function HandleChange(edits: Edits, name: string, value: string): (r: Edits)
    ensures Lookup(r, name) == Some(value)
    ensures forall n | n != name :: Lookup(r, n) == Lookup(edits, n)
    ensures r.Keys == edits.Keys + {name}
  {
    edits[name := value]
  }

  /** The config's input no longer shows its stored value (a missing entry counts as
      changed, as `undefined !== value` does). */
  predicate IsChanged(edits: Edits, c: Config) {
    Lookup(edits, c.name) != Some(c.value)
  }

  function UpdateFor(edits: Edits, c: Config): ConfigUpdate {
    ConfigUpdate(c.name, Lookup(edits, c.name))
  }

  /** The change set as a reference definition: the changed configs, in config order,
      each turned into a name/edited-value pair. */
  function ChangeSet(configs: seq<Config>, edits: Edits): seq<ConfigUpdate> {
    MapSeq(Filter(configs, (c: Config) => IsChanged(edits, c)), (c: Config) => UpdateFor(edits, c))
  }

  /** The change set is empty exactly when no config's input differs from its stored value. */
  lemma ChangeSetEmptyIff(configs: seq<Config>, edits: Edits)
    ensures ChangeSet(configs, edits) == [] <==> forall c | c in configs :: !IsChanged(edits, c)
  {
    var changed := Filter(configs, (c: Config) => IsChanged(edits, c));
    if changed != [] {
      assert changed[0] in changed;
    }
  }

  /** Every changed config has its update in the change set, and every update in it
      names a changed config and carries that config's edited value. */
  lemma ChangeSetMembers(configs: seq<Config>, edits: Edits)
    ensures forall c | c in configs && IsChanged(edits, c) :: UpdateFor(edits, c) in ChangeSet(configs, edits)
    ensures forall u | u in ChangeSet(configs, edits) ::
              exists c | c in configs :: c.name == u.name && IsChanged(edits, c) && u.value == Lookup(edits, c.name)
  {
    var changed := Filter(configs, (c: Config) => IsChanged(edits, c));
    var updates := ChangeSet(configs, edits);
    forall c | c in configs && IsChanged(edits, c)
      ensures UpdateFor(edits, c) in updates
    {
      var k :| 0 <= k < |changed| && changed[k] == c;
      assert updates[k] == UpdateFor(edits, c);
    }
    forall u | u in updates
      ensures exists c | c in configs :: c.name == u.name && IsChanged(edits, c) && u.value == Lookup(edits, c.name)
    {
      var k :| 0 <= k < |updates| && updates[k] == u;
      assert changed[k] in changed;
    }
  }

  /** Extending the configs at the end extends the change set by that config's update
      when it was changed. */
  lemma ChangeSetSnoc(configs: seq<Config>, c: Config, edits: Edits)
    ensures ChangeSet(configs + [c], edits)
            == ChangeSet(configs, edits) + (if IsChanged(edits, c) then [UpdateFor(edits, c)] else [])
  {
    FilterSnoc(configs, c, (c: Config) => IsChanged(edits, c));
  }

  /** The loop in `handleSave` that pushes an update for each changed config. */
  method PrepareUpdates(configs: seq<Config>, edits: Edits) returns (updates: seq<ConfigUpdate>)
    ensures updates == ChangeSet(configs, edits)
    ensures |updates| <= |configs|
  {
    updates := [];
    var k := 0;
    while k < |configs|
      invariant 0 <= k <= |configs|
      invariant updates == ChangeSet(configs[..k], edits)
    {
      var c := configs[k];
      ChangeSetSnoc(configs[..k], c, edits);
      assert configs[..k + 1] == configs[..k] + [c];
      if Lookup(edits, c.name) != Some(c.value) {
        updates := updates + [ConfigUpdate(c.name, Lookup(edits, c.name))];
      }
      k := k + 1;
    }
    assert configs[..k] == configs;
  }

  /** What a save does before any network call. */
  datatype SaveOutcome =
    | NoChanges                                  // "No changes to save", nothing sent
    | BulkUpdate(updates: seq<ConfigUpdate>)     // one bulk request with these entries

  const NoChangesMessage: string := "No changes to save"

  /** `handleSave` up to the request: nothing is sent when nothing changed; otherwise
      exactly the change set is sent, and it is never empty. */
  method HandleSave(configs: seq<Config>, edits: Edits) returns (outcome: SaveOutcome)
    ensures outcome.NoChanges? <==> forall c | c in configs :: Lookup(edits, c.name) == Some(c.value)
    ensures outcome.BulkUpdate? ==> outcome.updates == ChangeSet(configs, edits) && |outcome.updates| > 0
  {
    var updates := PrepareUpdates(configs, edits);
    ChangeSetEmptyIff(configs, edits);
    if |updates| == 0 {
      outcome := NoChanges;
    } else {
      outcome := BulkUpdate(updates);
    }
  }

  /** Saving right after a fetch sends nothing, provided configs sharing a name share
      a value. */
  lemma SaveAfterFetchSendsNothing(configs: seq<Config>)
    requires NamesDetermineValues(configs)
    ensures ChangeSet(configs, InitialValues(configs)) == []
  {
    FetchedEditsMatchStored(configs);
    ChangeSetEmptyIff(configs, InitialValues(configs));
  }

  /** Two configs named alike with different values: the fetched buffer already
      disagrees with the first one, so a save with no user edit still sends it. */
  lemma DuplicateNamesAfterFetch()
    ensures var configs := [Config("1", "base_fare", "2", None), Config("2", "base_fare", "3", None)];
            ChangeSet(configs, InitialValues(configs)) == [ConfigUpdate("base_fare", Some("3"))]
  {
    var configs := [Config("1", "base_fare", "2", None), Config("2", "base_fare", "3", None)];
    var m := InitialValues(configs);
    assert configs[..1] == [configs[0]];
    assert m == map["base_fare" := "3"];
    assert Filter(configs, (c: Config) => IsChanged(m, c)) == [configs[0]];
  }

  /** After a fetch, editing one config to a new value makes the change set consist of
      updates to that name only, carrying the new value, and the edit is among them. */
  lemma EditAfterFetch(configs: seq<Config>, i: int, v: string)
    requires NamesDetermineValues(configs) && 0 <= i < |configs|
    requires v != configs[i].value
    ensures var edits := HandleChange(InitialValues(configs), configs[i].name, v);
            && ConfigUpdate(configs[i].name, Some(v)) in ChangeSet(configs, edits)
            && forall u | u in ChangeSet(configs, edits) :: u == ConfigUpdate(configs[i].name, Some(v))
  {
    var edits := HandleChange(InitialValues(configs), configs[i].name, v);
    FetchedEditsMatchStored(configs);
    ChangeSetMembers(configs, edits);
    assert configs[i] in configs;
    assert UpdateFor(edits, configs[i]) == ConfigUpdate(configs[i].name, Some(v));
  }

  /** Typing a value and then typing the stored value back leaves nothing to save. */
  lemma EditThenRevert(configs: seq<Config>, i: int, v: string)
    requires NamesDetermineValues(configs) && 0 <= i < |configs|
    ensures var fetched := InitialValues(configs);
            var edits := HandleChange(HandleChange(fetched, configs[i].name, v), configs[i].name, configs[i].value);
            ChangeSet(configs, edits) == []
  {
    var fetched := InitialValues(configs);
    var edits := HandleChange(HandleChange(fetched, configs[i].name, v), configs[i].name, configs[i].value);
    FetchedEditsMatchStored(configs);
    assert configs[i] in configs;
    assert forall n :: Lookup(edits, n) == Lookup(fetched, n);
    ChangeSetEmptyIff(configs, edits);
  }

  // ---------------------------------------------------------------------------
  // Grouping, icons and labels
  // ---------------------------------------------------------------------------

  datatype Category = General | DriverMatching | Rates | Minimum | Other

  /** `getConfigCategory`: two exact names are general pricing, one exact name is driver
      matching; then substring rules pick per-kilometre rates before minimum fares. */
  function GetConfigCategory(name: string): (r: Category)
    ensures r == General <==> name == "base_fare" || name == "commission_percentage"
    ensures r == DriverMatching <==> name == "driver_search_radius"
    ensures r == Rates <==> Contains(name, "per_km_rate")
    ensures r == Minimum <==> Contains(name, "minimum_fare") && !Contains(name, "per_km_rate")
    ensures r == Other <==>
              && name != "base_fare" && name != "commission_percentage" && name != "driver_search_radius"
              && !Contains(name, "per_km_rate") && !Contains(name, "minimum_fare")
  {
    // each of the first rule's two names gets its own branch
    if name == "base_fare" then
      NameLacksSubstrings("base_fare", 'p', 'm');
      General
    else if name == "commission_percentage" then
      NameLacksSubstrings("commission_percentage", 'k', 'f');
      General
    else if name == "driver_search_radius" then
      NameLacksSubstrings("driver_search_radius", 'p', 'm');
      DriverMatching
    else if Contains(name, "per_km_rate") then Rates
    else if Contains(name, "minimum_fare") then Minimum
    else Other
  }

  /** A name missing a letter of each substring contains neither substring; each of the
      three exact names is such a name, so the order of the rules only matters among
      the substring rules. */
  lemma NameLacksSubstrings(name: string, fromRate: char, fromMinimum: char)
    requires fromRate in "per_km_rate" && fromRate !in name
    requires fromMinimum in "minimum_fare" && fromMinimum !in name
    ensures !Contains(name, "per_km_rate") && !Contains(name, "minimum_fare")
  {
    NotContainsByChar(name, "per_km_rate", fromRate);
    NotContainsByChar(name, "minimum_fare", fromMinimum);
  }

  /** `categorizedConfigs`: each category keeps, in order, the configs it owns. */
  function InCategory(configs: seq<Config>, cat: Category): seq<Config> {
    Filter(configs, (c: Config) => GetConfigCategory(c.name) == cat)
  }

  /** The five groups split the configs: every config is in exactly one group, and the
      group sizes add up to the number of configs. */
  lemma {:induction false} CategoriesPartition(configs: seq<Config>)
    ensures forall c | c in configs :: c in InCategory(configs, GetConfigCategory(c.name))
    ensures forall c, cat | c in configs && cat != GetConfigCategory(c.name) :: c !in InCategory(configs, cat)
    ensures |InCategory(configs, General)| + |InCategory(configs, DriverMatching)| + |InCategory(configs, Rates)|
            + |InCategory(configs, Minimum)| + |InCategory(configs, Other)| == |configs|
    decreases |configs|
  {
    if |configs| > 0 {
      CategoriesPartition(configs[1..]);
    }
  }

  /** The icons a config card can show. */
  datatype Icon = DollarSign | MapPin | Car

  /** `getConfigIcon`: money words win over "radius"; everything else gets the car. */
  function GetConfigIcon(name: string): (r: Icon)
    ensures r == DollarSign <==> Contains(name, "fare") || Contains(name, "rate") || Contains(name, "commission")
    ensures r == MapPin <==>
              !Contains(name, "fare") && !Contains(name, "rate") && !Contains(name, "commission")
              && Contains(name, "radius")
  {
    if Contains(name, "fare") || Contains(name, "rate") || Contains(name, "commission") then DollarSign
    else if Contains(name, "radius") then MapPin
    else Car
  }

  /** Every config on the pricing, rate and minimum-fare panels shows the dollar sign,
      and the driver-matching config shows the map pin. */
  lemma IconOfCategory(name: string)
    ensures GetConfigCategory(name) in {General, Rates, Minimum} ==> GetConfigIcon(name) == DollarSign
    ensures GetConfigCategory(name) == DriverMatching ==> GetConfigIcon(name) == MapPin
  {
    var cat := GetConfigCategory(name);
    if cat == General {
      if name == "base_fare" {
        assert OccursAt(name, "fare", 5);
      } else {
        assert OccursAt(name, "commission", 0);
      }
    } else if cat == Rates {
      assert OccursAt("per_km_rate", "rate", 7);
      ContainsTransitive(name, "per_km_rate", "rate");
    } else if cat == Minimum {
      assert OccursAt("minimum_fare", "fare", 8);
      ContainsTransitive(name, "minimum_fare", "fare");
    } else if cat == DriverMatching {
      NotContainsByChar(name, "fare", 'f');
      NotContainsByChar(name, "rate", 't');
      NotContainsByChar(name, "commission", 'o');
      assert OccursAt(name, "radius", 14);
    }
  }

  /** `word.charAt(0).toUpperCase() + word.slice(1)`. */
  function Capitalize(word: string): string {
    if |word| == 0 then "" else [UpperChar(word[0])] + word[1..]
  }

  /** `formatLabel`: split on `_`, capitalise each piece, join with spaces. */
  function FormatLabel(name: string): string {
    Join(MapSeq(Split(name, '_'), Capitalize), ' ')
  }

  /** What `formatLabel` puts at position `i`: underscores become spaces, the first
      character of each underscore-separated piece is upper-cased, the rest is kept. */
  function LabelChar(name: string, i: int): char
    requires 0 <= i < |name|
  {
    if name[i] == '_' then ' '
    else if i == 0 || name[i - 1] == '_' then UpperChar(name[i])
    else name[i]
  }

  /** `formatLabel` keeps the length and rewrites the name character by character as
      `LabelChar` says. */
  lemma FormatLabelPointwise(name: string)
    ensures |FormatLabel(name)| == |name|
    ensures forall i | 0 <= i < |name| :: FormatLabel(name)[i] == LabelChar(name, i)
  {
    var parts := Split(name, '_');
    JoinSplit(name, '_');
    JoinCapitalized(parts);
  }

  lemma {:induction false} JoinCapitalized(parts: seq<string>)
    requires |parts| >= 1
    requires forall p | p in parts :: '_' !in p
    ensures var s := Join(parts, '_');
            var r := Join(MapSeq(parts, Capitalize), ' ');
            |r| == |s| && forall i | 0 <= i < |s| :: r[i] == LabelChar(s, i)
    decreases |parts|
  {
    var s := Join(parts, '_');
    var caps := MapSeq(parts, Capitalize);
    var r := Join(caps, ' ');
    var p0 := parts[0];
    assert p0 in parts;
    assert forall k | 0 <= k < |p0| :: p0[k] != '_';
    if |parts| == 1 {
      assert s == p0 && r == Capitalize(p0);
    } else {
      var s' := Join(parts[1..], '_');
      var r' := Join(MapSeq(parts[1..], Capitalize), ' ');
      assert forall p | p in parts[1..] :: p in parts;
      JoinCapitalized(parts[1..]);
      assert caps[1..] == MapSeq(parts[1..], Capitalize);
      assert s == p0 + ['_'] + s';
      assert r == Capitalize(p0) + [' '] + r';
      forall i | 0 <= i < |s|
        ensures r[i] == LabelChar(s, i)
      {
        if i < |p0| {
          assert s[i] == p0[i];
          if i > 0 {
            assert s[i - 1] == p0[i - 1];
          }
        } else if i > |p0| {
          var j := i - |p0| - 1;
          assert s[i] == s'[j] && r[i] == r'[j];
          if j > 0 {
            assert s[i - 1] == s'[j - 1];
          }
        }
      }
    }
  }

  /** Labels contain no underscore and have exactly the name's length. */
  lemma FormatLabelHasNoUnderscore(name: string)
    ensures |FormatLabel(name)| == |name|
    ensures '_' !in FormatLabel(name)
  {
    FormatLabelPointwise(name);
    var r := FormatLabel(name);
    forall i | 0 <= i < |r|
      ensures r[i] != '_'
    {
      assert r[i] == LabelChar(name, i);
    }
  }
}
