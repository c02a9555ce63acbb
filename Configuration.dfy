/**
 * `Configuration` and `ConfigurationOption`: a map from option names to
 * untyped values, where an option that was never set reads as its default.
 * Both copies of `Configuration` behave alike; only one of them offers
 * `isSet`.
 */
module Configurations {

  /** A configuration value: Java's `null`, an `Integer` or a `String`. */
  datatype Value = Null | IntValue(i: int) | StringValue(s: string)

  /** An option: the key it is stored under and the value it reads as when unset. */
  datatype ConfigurationOption = ConfigurationOption(name: string, defaultValue: Value)

  const JOB_ID := ConfigurationOption("mr.job.id", IntValue(1))
  const JOB_PATH := ConfigurationOption("mr.job.path", Null)
  const JOB_STORAGE_CONNECTION_STRING := ConfigurationOption("mr.job.storage.connection.string", Null)
  const INPUTS_PATH := ConfigurationOption("mr.inputs.path", Null)
  const MAPPERS_OUTPUTS_PATH := ConfigurationOption("mr.mappers.outputs.path", Null)
  const REDUCERS_OUTPUTS_PATH := ConfigurationOption("mr.reducers.outputs.path", Null)
  const DATA_STORAGE_CONNECTION_STRING := ConfigurationOption("mr.data.storage.connection.string", Null)
  const MAPPERS_COUNT := ConfigurationOption("mr.mappers.count", IntValue(1))
  const REDUCERS_COUNT := ConfigurationOption("mr.reducers.count", IntValue(1))
  const SORTER_IN_MEMORY_RECORDS := ConfigurationOption("mr.sorter.in.memory.records", IntValue(10000))

  /** Every predefined option, in declaration order. */
  const AllOptions: seq<ConfigurationOption> :=
    [JOB_ID, JOB_PATH, JOB_STORAGE_CONNECTION_STRING, INPUTS_PATH, MAPPERS_OUTPUTS_PATH,
     REDUCERS_OUTPUTS_PATH, DATA_STORAGE_CONNECTION_STRING, MAPPERS_COUNT, REDUCERS_COUNT,
     SORTER_IN_MEMORY_RECORDS]

  /**
   * No two predefined options share a name, so setting one never changes
   * what another reads as.
   */
  lemma OptionNamesDistinct()
    ensures forall i, j :: 0 <= i < j < |AllOptions| ==> AllOptions[i].name != AllOptions[j].name
  {
    // The predefined names all have different lengths.
  }

  class Configuration {
    /** The values set so far, by option name. */
    var values: map<string, Value>

    constructor ()
      ensures values == map[]
      ensures forall o: ConfigurationOption :: !IsSet(o) && Get(o) == o.defaultValue
    {
      values := map[];
    }

    /** `isSet`: whether a value was stored under the option's name. */
    function IsSet(option: ConfigurationOption): bool
      reads this
    {
      option.name in values
    }

    /** `get`: the stored value, even `null`, or else the option's default. */
    function Get(option: ConfigurationOption): Value
      reads this
    {
      if option.name in values then values[option.name] else option.defaultValue
    }

    /**
     * `set`: stores `value` under the option's name and returns this same
     * configuration. Options with other names read as before.
     */
    method Set(option: ConfigurationOption, value: Value) returns (self: Configuration)
      modifies this
      ensures self == this && values == old(values)[option.name := value]
      ensures IsSet(option) && Get(option) == value
      ensures forall o: ConfigurationOption :: o.name != option.name ==> IsSet(o) == old(IsSet(o)) && Get(o) == old(Get(o))
    {
      values := values[option.name := value];
      self := this;
    }
  }
}
