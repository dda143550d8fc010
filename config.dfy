/**
 * Configuration (kumade/config.py): the registry of configuration items
 * that a Kumadefile declares, the confirmation of user-given values against
 * it, and the confirmed configuration, which can be set only once.
 */
module Configuration {
  import opened Wrappers
  import opened Dicts

  /** A configuration value of any type, given by its `str`. */
  datatype Setting = Setting(text: string)

  /**
   * The behaviour of every converter, by identity, on a user-given string:
   * the converted value, or `None` when the converter raises.
   */
  type Conversion = (nat, string) -> Option<Setting>

  datatype ConfigItem = ConfigItem(name: string, converter: nat, defaultValue: Setting, help: string)

  datatype ConfigError =
    | UnknownItem(name: string)
    | ConversionFailed(name: string)

  /** The confirmed value of `item`: the user's string converted, or the default when none was given. */
  function ConfirmedValue(item: ConfigItem, values: Dict<string>, convert: Conversion): Option<Setting>
  {
    if item.name in values.entries then convert(item.converter, values.entries[item.name])
    else Some(item.defaultValue)
  }

  /** The items filed under `keys`, in that order. */
  function ItemsOf(keys: seq<string>, entries: map<string, ConfigItem>): seq<ConfigItem>
    requires forall k :: k in keys ==> k in entries
  {
    seq(|keys|, i requires 0 <= i < |keys| => entries[keys[i]])
  }

  class ConfigRegistry {
    /** The items by name, in the order they were added. */
    var items: Dict<ConfigItem>

    /** Every item is filed under its own name. */
    ghost predicate Valid()
      reads this
    {
      items.Valid() && forall n :: n in items.entries ==> items.entries[n].name == n
    }

    constructor()
      ensures Valid() && items == Empty()
    {
      items := Empty();
    }

    /** `add_item`: an item whose name is taken is refused and nothing changes. */
    method AddItem(item: ConfigItem) returns (r: Result<(), string>)
      requires Valid()
      modifies this
      ensures Valid()
      ensures old(item.name in items.entries) ==> r.Failure? && items == old(items)
      ensures old(item.name !in items.entries) ==>
        && r.Success?
        && items.keys == old(items.keys) + [item.name]
        && items.entries == old(items.entries)[item.name := item]
    {
      var name := item.name;
      if name in items.entries {
        return Failure("Configuration item " + name + " already exists.");
      }
      items := items.Insert(name, item);
      r := Success(());
    }

    /** `get_all_items`: every item once, in the order added. */
    function GetAllItems(): (r: seq<ConfigItem>)
      reads this
      requires Valid()
      ensures |r| == |items.keys|
      ensures forall i :: 0 <= i < |r| ==> r[i] == items.entries[items.keys[i]] && r[i].name == items.keys[i]
      ensures forall it :: it in r <==> it in items.entries.Values
    {
      ItemsOf(items.keys, items.entries)
    }

    /**
     * `get_confirmed_values`: a user key that names no item is refused (the
     * first such key in the user's order); so is a value whose converter
     * raises (the first such item in registry order). Otherwise every item,
     * in registry order, gets its converted user value or its default.
     */
    method GetConfirmedValues(values: Dict<string>, convert: Conversion) returns (r: Result<Dict<Setting>, ConfigError>)
      requires Valid() && values.Valid()
      ensures (r.Failure? && r.error.UnknownItem?) <==> exists k :: k in values.entries && k !in items.entries
      ensures r.Failure? && r.error.UnknownItem? ==>
        exists i :: 0 <= i < |values.keys| && values.keys[i] == r.error.name && r.error.name !in items.entries
          && forall j :: 0 <= j < i ==> values.keys[j] in items.entries
      ensures r.Failure? && r.error.ConversionFailed? ==>
        && r.error.name in items.entries && r.error.name in values.entries
        && convert(items.entries[r.error.name].converter, values.entries[r.error.name]).None?
      ensures r.Failure? && r.error.ConversionFailed? ==>
        exists i :: 0 <= i < |items.keys| && items.keys[i] == r.error.name
          && forall j :: 0 <= j < i ==> ConfirmedValue(items.entries[items.keys[j]], values, convert).Some?
      ensures r.Success? <==>
        && (forall k :: k in values.entries ==> k in items.entries)
        && (forall n :: n in items.entries ==> ConfirmedValue(items.entries[n], values, convert).Some?)
      ensures r.Success? ==>
        && r.value.Valid() && r.value.keys == items.keys
        && forall n :: n in items.entries ==> r.value.entries[n] == ConfirmedValue(items.entries[n], values, convert).value
    {
      var unknown := FirstUnknown(values);
      if unknown.Some? {
        return Failure(UnknownItem(unknown.value));
      }
      r := ConfirmAll(values, convert);
    }

    /** The first pass of `get_confirmed_values`: the first user key, in the user's order, that names no item. */
    method FirstUnknown(values: Dict<string>) returns (unknown: Option<string>)
      requires values.Valid()
      ensures unknown.None? <==> forall k :: k in values.entries ==> k in items.entries
      ensures unknown.Some? ==>
        exists i :: 0 <= i < |values.keys| && values.keys[i] == unknown.value && unknown.value !in items.entries
          && forall j :: 0 <= j < i ==> values.keys[j] in items.entries
    {
      for i := 0 to |values.keys|
        invariant forall j :: 0 <= j < i ==> values.keys[j] in items.entries
      {
        if values.keys[i] !in items.entries {
          return Some(values.keys[i]);
        }
      }
      unknown := None;
    }

    /**
     * The second pass of `get_confirmed_values`, over the items in registry
     * order: the first converter that raises is reported, otherwise every
     * item gets its confirmed value.
     */
    method ConfirmAll(values: Dict<string>, convert: Conversion) returns (r: Result<Dict<Setting>, ConfigError>)
      requires Valid()
      ensures r.Failure? ==>
        && r.error.ConversionFailed?
        && r.error.name in items.entries && r.error.name in values.entries
        && convert(items.entries[r.error.name].converter, values.entries[r.error.name]).None?
      ensures r.Failure? ==>
        exists i :: 0 <= i < |items.keys| && items.keys[i] == r.error.name
          && forall j :: 0 <= j < i ==> ConfirmedValue(items.entries[items.keys[j]], values, convert).Some?
      ensures r.Success? <==> forall n :: n in items.entries ==> ConfirmedValue(items.entries[n], values, convert).Some?
      ensures r.Success? ==>
        && r.value.Valid() && r.value.keys == items.keys
        && forall n :: n in items.entries ==> r.value.entries[n] == ConfirmedValue(items.entries[n], values, convert).value
    {
      var confirmed: Dict<Setting> := Empty();
      for i := 0 to |items.keys|
        invariant confirmed.Valid() && confirmed.keys == items.keys[..i]
        invariant forall n :: n in confirmed.entries ==> ConfirmedValue(items.entries[n], values, convert) == Some(confirmed.entries[n])
      {
        var name := items.keys[i];
        var item := items.entries[name];
        var value;
        if name in values.entries {
          var converted := convert(item.converter, values.entries[name]);
          if converted.None? {
            assert forall j :: 0 <= j < i ==> items.keys[j] in confirmed.keys;
            return Failure(ConversionFailed(name));
          }
          value := converted.value;
        } else {
          value := item.defaultValue;
        }
        assert name !in items.keys[..i];
        confirmed := confirmed.Insert(name, value);
        assert items.keys[..i + 1] == items.keys[..i] + [name];
      }
      assert items.keys[..|items.keys|] == items.keys;
      r := Success(confirmed);
    }
  }

  /** The confirmed configuration values. */
  datatype Config = Config(values: Dict<Setting>)
  {
    /** `get`, and the attribute and index access that alias it: unknown names are refused. */
    function Get(name: string): (r: Result<Setting, string>)
      ensures r.Success? <==> name in values.entries
      ensures r.Success? ==> r.value == values.entries[name]
    {
      if name !in values.entries then Failure("There is no configuration item named " + name + ".")
      else Success(values.entries[name])
    }
  }

  /** The class-level slot holding the confirmed configuration. */
  class ConfigSlot {
    var instance: Option<Config>

    constructor()
      ensures instance == None
    {
      instance := None;
    }

    /** `Config.set`: the first call stores the values; any later call is refused and changes nothing. */
    method Set(values: Dict<Setting>) returns (r: Result<(), string>)
      modifies this
      ensures old(instance).Some? ==> r.Failure? && instance == old(instance)
      ensures old(instance).None? ==> r.Success? && instance == Some(Config(values))
    {
      if instance.Some? {
        return Failure("Configuration is already set.");
      }
      instance := Some(Config(values));
      r := Success(());
    }

    /** `Config.get_instance`: refused until the configuration is set. */
    function GetInstance(): (r: Result<Config, string>)
      reads this
      ensures r.Success? <==> instance.Some?
      ensures r.Success? ==> r.value == instance.value
    {
      if instance.None? then Failure("Configuration is not confirmed.") else Success(instance.value)
    }
  }
}
