/** Which mapping is inferred between two partition types, and what it does to any key
    (`infer_mapping` and `map_time_aggregation` of servo-core/src/partition_mapping.rs). */
module MappingInference {
  import opened Integers
  import opened Wrappers
  import opened Assets
  import opened Calendar
  import opened Text
  import opened PartitionKeys
  import opened PartitionMapping
  import opened PartitionValidator
  import opened PartitionResolver

  /** A mapping is inferred exactly between equal granularities, aggregating ones, two range types and two
      custom types; only between different granularities it is not the identity. */
  lemma InferredIff(up: PartitionType, down: PartitionType)
    ensures InferMapping(up, down).Ok? <==>
              if up.Time? && down.Time? then Compatible(up.granularity, down.granularity)
              else (up.Range? && down.Range?) || (up.Custom? && down.Custom?)
    ensures InferMapping(up, down).Ok? ==>
              if up.Time? && up != down
              then InferMapping(up, down).value.TimeAggregation?
                   && InferMapping(up, down).value.upstreamGranularity == up.granularity
                   && InferMapping(up, down).value.downstreamGranularity == down.granularity
              else InferMapping(up, down).value == Identity
    ensures InferMapping(up, down).Err? ==> InferMapping(up, down).error == IncompatibleTypes(up, down)
  {
  }

  /** The factor of an inferred aggregation is the number of upstream keys of every key, except that a month
      has as many only if it has thirty days. */
  lemma FactorIsCount(up: TimeGranularity, down: TimeGranularity, n: int)
    requires Aggregates(up, down) && InKeyRange(down, n)
    ensures InferMapping(Time(up), Time(down)).Ok? && InferMapping(Time(up), Time(down)).value.TimeAggregation?
    ensures var mapping := InferMapping(Time(up), Time(down)).value;
            |MapPartition(mapping, Key(down, n))| == mapping.factor <==>
              (down == Monthly ==> n % 12 + 1 in {4, 6, 9, 11})
  {
    hide MapPartition, Key, InKeyRange, Keys, FirstOfMonth;
    var mapping := InferMapping(Time(up), Time(down)).value;
    AggregationIsInterval(up, down, mapping.factor, n);
    StartIncreases(up, down, n);
    KeysLength(up, Start(up, down, n), Start(up, down, n + 1));
    if down == Monthly {
      StartOfNextMonth(n);
      ThirtyDays(n / 12, n % 12 + 1);
    }
  }

  lemma ThirtyDays(year: int, month: nat)
    requires 1 <= month <= 12
    ensures DaysInMonth(year, month) == 30 <==> month in {4, 6, 9, 11}
  {
  }

  /** Any key that parses, canonical or not, maps to the upstream partitions from the start of its own
      partition to the start of the next, or, for weeks, to the seven days from its first; any other key
      and any other pair of granularities maps to the key itself. */
  lemma AggregationOfAnyKey(up: TimeGranularity, down: TimeGranularity, factor: u32, key: string)
    ensures MapPartition(TimeAggregation(factor, up, down), key) ==
              if !Aggregates(up, down) || Denotes(key, down).None? then [key]
              else if down == Weekly then
                Keys(Daily, ParseWeeklyKey(key).value, ParseWeeklyKey(key).value + 7)
              else
                Keys(up, Start(up, down, Denotes(key, down).value), Start(up, down, Denotes(key, down).value + 1))
  {
    hide DaysFrom, HoursOf, MonthsOf, Keys, ParseDailyKey, ParseWeeklyKey, ParseMonthlyKey, ParseI32, FirstOfMonth,
         DaysInMonth, Key;
    if Aggregates(up, down) && Denotes(key, down).Some? {
      var n := Denotes(key, down).value;
      match down
      case Weekly => DaysAreKeys(ParseWeeklyKey(key).value, 7);
      case Monthly =>
        ParsedMonth(key);
        StartOfNextMonth(n);
        DaysAreKeys(Start(Daily, Monthly, n), DaysInMonth(n / 12, n % 12 + 1));
      case Daily => HoursAreKeys(n, 24);
      case Yearly => MonthsAreKeys(n, 12);
    }
  }

  lemma ParsedMonth(key: string)
    requires ParseMonthlyKey(key).Some?
    ensures var (year, month) := ParseMonthlyKey(key).value;
            && 1 <= month <= 12
            && Denotes(key, Monthly) == Some(12 * year + month - 1)
            && (12 * year + month - 1) / 12 == year && (12 * year + month - 1) % 12 + 1 == month
  {
    var (year, month) := ParseMonthlyKey(key).value;
    MonthOfYear(year, month);
  }

  // ----- The resolver's default -----

  /** A custom mapping as the default does nothing to any key, and neither does what replaces it. */
  lemma DefaultIsNeverCustom(mapping: Mapping, key: string)
    ensures !WithDefaultMapping(mapping).defaultMapping.CustomMapping?
    ensures MapPartition(WithDefaultMapping(mapping).defaultMapping, key) == MapPartition(mapping, key)
    ensures !mapping.CustomMapping? ==> WithDefaultMapping(mapping).defaultMapping == mapping
  {
  }

  /** Whatever configuration is missing or fits no inference, the default is used; and a range that is mapped by
      the identity or a custom mapping is that of the downstream keys. */
  lemma UnmappedRange(r: Resolver, start: string, end: string, up: Option<PartitionConfig>,
                      down: Option<PartitionConfig>)
    ensures up.None? || down.None? || InferMapping(up.value.partitionType, down.value.partitionType).Err?
            ==> ChosenMapping(r, up, down) == r.defaultMapping
    ensures ChosenMapping(r, up, down).Identity? || ChosenMapping(r, up, down).CustomMapping?
            ==> ResolveUpstreamRange(r, start, end, up, down) == (start, end)
  {
  }
}
