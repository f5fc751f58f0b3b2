/** Partition ranges of upstream child jobs, against the upstream keys that the readiness
    check demands key by key (servo-runtime/src/partition_resolver.rs and
    `resolve_upstream_partitions` of servo-runtime/src/backfill_executor.rs). */
module PartitionResolver {
  import opened Integers
  import opened Wrappers
  import opened Assets
  import opened Text
  import opened PartitionKeys
  import opened PartitionMapping

  datatype Resolver = Resolver(defaultMapping: Mapping)

  /** The resolver that the backfill executor uses. */
  const EXECUTOR_RESOLVER := Resolver(Identity)

  /** Custom mappings are not implemented and give way to the identity. */
  function WithDefaultMapping(mapping: Mapping): Resolver {
    if mapping.CustomMapping? then Resolver(Identity) else Resolver(mapping)
  }

  function ChosenMapping(r: Resolver, up: Option<PartitionConfig>, down: Option<PartitionConfig>): Mapping {
    if up.Some? && down.Some? then
      match InferMapping(up.value.partitionType, down.value.partitionType)
      case Ok(mapping) => mapping
      case Err(_) => r.defaultMapping
    else r.defaultMapping
  }

  function FirstOr(keys: seq<string>, default: string): string {
    if keys == [] then default else keys[0]
  }

  function LastOr(keys: seq<string>, default: string): string {
    if keys == [] then default else keys[|keys| - 1]
  }

  /** The upstream start and end key for a downstream start and end key. */
  function ResolveUpstreamRange(r: Resolver, start: string, end: string,
                                up: Option<PartitionConfig>, down: Option<PartitionConfig>): (string, string)
  {
    var mapping := ChosenMapping(r, up, down);
    match mapping
    case Identity => (start, end)
    case TimeAggregation(_, _, _) =>
      (FirstOr(MapPartition(mapping, start), start), LastOr(MapPartition(mapping, end), end))
    case TimeWindow(_, _) => (LastOr(MapPartition(mapping, start), start), end)
    case TimeOffset(_, _) => (FirstOr(MapPartition(mapping, start), start), FirstOr(MapPartition(mapping, end), end))
    case CustomMapping(_) => (start, end)
  }

  /** The upstream keys that the readiness check asks for, for one downstream key. */
  function RequiredKeys(key: string, up: Option<PartitionConfig>, down: Option<PartitionConfig>): seq<string> {
    if up.Some? && down.Some? then
      match InferMapping(up.value.partitionType, down.value.partitionType)
      case Ok(mapping) => MapPartition(mapping, key)
      case Err(_) => [key]
    else [key]
  }

  /** The child range and the readiness check of a key use the same mapping exactly when one is
      inferred or the resolver's default leaves the key alone. The executor's always does. */
  lemma SameMapping(r: Resolver, key: string, up: Option<PartitionConfig>, down: Option<PartitionConfig>)
    ensures var inferred := up.Some? && down.Some?
                            && InferMapping(up.value.partitionType, down.value.partitionType).Ok?;
            RequiredKeys(key, up, down) == MapPartition(ChosenMapping(r, up, down), key)
            <==> inferred || MapPartition(r.defaultMapping, key) == [key]
    ensures MapPartition(EXECUTOR_RESOLVER.defaultMapping, key) == [key]
  {
  }

  /** The granularities between which keys map. */
  predicate Compatible(up: TimeGranularity, down: TimeGranularity) {
    up == down || Aggregates(up, down)
  }

  predicate IsTime(config: Option<PartitionConfig>, g: TimeGranularity) {
    config.Some? && config.value.partitionType == Time(g)
  }

  /** The first upstream partition that the downstream partition `n` needs. */
  function First(up: TimeGranularity, down: TimeGranularity, n: int): int
    requires Compatible(up, down)
  {
    if up == down then n else Start(up, down, n)
  }

  lemma {:induction false} FirstIncreases(up: TimeGranularity, down: TimeGranularity, a: int, b: int)
    requires Compatible(up, down) && a <= b
    ensures First(up, down, a) + (b - a) <= First(up, down, b)
    decreases b - a
  {
    if a < b {
      FirstIncreases(up, down, a, b - 1);
      if up != down {
        StartIncreases(up, down, b - 1);
      }
    }
  }

  /** One downstream key needs exactly the upstream keys from its first to the next one's first. */
  lemma RequiredIsInterval(up: TimeGranularity, down: TimeGranularity, n: int,
                           upConfig: Option<PartitionConfig>, downConfig: Option<PartitionConfig>)
    requires Compatible(up, down) && InKeyRange(down, n)
    requires IsTime(upConfig, up) && IsTime(downConfig, down)
    ensures RequiredKeys(Key(down, n), upConfig, downConfig) == Keys(up, First(up, down, n), First(up, down, n + 1))
  {
    hide Key, Start, InKeyRange;
    if up == down {
      assert Keys(up, n, n + 1) == [Key(up, n)];
    } else {
      var factor: u32 :| InferMapping(Time(up), Time(down)) == Ok(TimeAggregation(factor, up, down));
      AggregationIsInterval(up, down, factor, n);
    }
  }

  /** The resolved range runs from the first key needed by the start to the last needed by the end. */
  lemma ResolvedRange(up: TimeGranularity, down: TimeGranularity, a: int, b: int,
                      upConfig: Option<PartitionConfig>, downConfig: Option<PartitionConfig>, r: Resolver)
    requires Compatible(up, down) && InKeyRange(down, a) && InKeyRange(down, b)
    requires IsTime(upConfig, up) && IsTime(downConfig, down)
    ensures ResolveUpstreamRange(r, Key(down, a), Key(down, b), upConfig, downConfig)
         == (Key(up, First(up, down, a)), Key(up, First(up, down, b + 1) - 1))
  {
    hide Key, Start, InKeyRange, MapPartition;
    RequiredIsInterval(up, down, a, upConfig, downConfig);
    RequiredIsInterval(up, down, b, upConfig, downConfig);
    KeysAt(up, First(up, down, a), First(up, down, a + 1));
    KeysAt(up, First(up, down, b), First(up, down, b + 1));
    FirstIncreases(up, down, a, a + 1);
    FirstIncreases(up, down, b, b + 1);
  }

  /** The range view and the key view agree: an upstream key lies in the resolved range, as a
      string, exactly when some downstream key from start to end needs it. The end counts as
      one of them. */
  lemma RangeCoversRequiredKeys(up: TimeGranularity, down: TimeGranularity, a: int, b: int, x: int,
                                upConfig: Option<PartitionConfig>, downConfig: Option<PartitionConfig>, r: Resolver)
    requires Compatible(up, down) && IsTime(upConfig, up) && IsTime(downConfig, down)
    requires a <= b && InKeyRange(down, a) && InKeyRange(down, b)
    requires InKeyRange(up, First(up, down, a)) && InKeyRange(up, First(up, down, b + 1) - 1) && InKeyRange(up, x)
    ensures var (lo, hi) := ResolveUpstreamRange(r, Key(down, a), Key(down, b), upConfig, downConfig);
            (!Less(Key(up, x), lo) && !Less(hi, Key(up, x)))
            <==> exists n :: a <= n <= b && Key(up, x) in RequiredKeys(Key(down, n), upConfig, downConfig)
  {
    hide Key, First, Less, ResolveUpstreamRange, RequiredKeys, InKeyRange;
    ResolvedRange(up, down, a, b, upConfig, downConfig, r);
    KeyOrder(up, x, First(up, down, a));
    KeyOrder(up, First(up, down, b + 1) - 1, x);
    if First(up, down, a) <= x < First(up, down, b + 1) {
      var n := OwnerOf(up, down, a, b, x);
      NeededBy(up, down, a, b, n, x, upConfig, downConfig);
      assert Key(up, x) in RequiredKeys(Key(down, n), upConfig, downConfig);
    }
    forall n | a <= n <= b && Key(up, x) in RequiredKeys(Key(down, n), upConfig, downConfig)
      ensures First(up, down, a) <= x < First(up, down, b + 1)
    {
      NeededBy(up, down, a, b, n, x, upConfig, downConfig);
      FirstIncreases(up, down, a, n);
      FirstIncreases(up, down, n + 1, b + 1);
    }
  }

  /** A downstream partition in the range needs exactly the upstream partitions in its interval. */
  lemma NeededBy(up: TimeGranularity, down: TimeGranularity, a: int, b: int, n: int, x: int,
                 upConfig: Option<PartitionConfig>, downConfig: Option<PartitionConfig>)
    requires Compatible(up, down) && IsTime(upConfig, up) && IsTime(downConfig, down)
    requires a <= n <= b && InKeyRange(down, a) && InKeyRange(down, b)
    requires InKeyRange(up, First(up, down, a)) && InKeyRange(up, First(up, down, b + 1) - 1) && InKeyRange(up, x)
    ensures Key(up, x) in RequiredKeys(Key(down, n), upConfig, downConfig)
       <==> First(up, down, n) <= x < First(up, down, n + 1)
  {
    hide Key, Start, YearOf, RequiredKeys;
    YearsFollowOrdinals(down, a, n);
    YearsFollowOrdinals(down, n, b);
    RequiredIsInterval(up, down, n, upConfig, downConfig);
    var lo, hi := First(up, down, n), First(up, down, n + 1);
    var keys := Keys(up, lo, hi);
    KeysAt(up, lo, hi);
    FirstIncreases(up, down, n, n + 1);
    FirstIncreases(up, down, a, n);
    FirstIncreases(up, down, n + 1, b + 1);
    if lo <= x < hi {
      assert keys[x - lo] == Key(up, x);
    }
    if Key(up, x) in keys {
      var i :| 0 <= i < |keys| && keys[i] == Key(up, x);
      YearsFollowOrdinals(up, First(up, down, a), lo + i);
      YearsFollowOrdinals(up, lo + i, First(up, down, b + 1) - 1);
      KeyOrder(up, lo + i, x);
    }
  }

  /** The downstream partition whose interval holds `x`. */
  lemma {:induction false} OwnerOf(up: TimeGranularity, down: TimeGranularity, a: int, b: int, x: int) returns (n: int)
    requires Compatible(up, down) && a <= b
    requires First(up, down, a) <= x < First(up, down, b + 1)
    ensures a <= n <= b && First(up, down, n) <= x < First(up, down, n + 1)
    decreases b - a
  {
    hide Start;
    if First(up, down, b) <= x {
      n := b;
    } else {
      n := OwnerOf(up, down, a, b - 1, x);
    }
  }

  /** With a window default the range begins at the earliest partition of the start's window. */
  lemma WindowDefaultRange(size: u32, g: TimeGranularity, a: int, b: int)
    requires g in {Daily, Hourly} && InKeyRange(g, a) && size > 0
    ensures ResolveUpstreamRange(WithDefaultMapping(TimeWindow(size, g)), Key(g, a), Key(g, b), None, None)
         == (Key(g, a - (size - 1)), Key(g, b))
  {
    hide Key, MapPartition, Moves, OrdinalOf, InKeyRange, IsRepresentable;
    KeyRangeIsRepresentable(g, a);
    CanonicalKeyMoves(g, a);
    WindowKeys(Key(g, a), size, g);
  }

  /** A partition is in the window of a key exactly if it is at most `size - 1` periods before it. */
  lemma InWindow(size: u32, g: TimeGranularity, n: int, x: int)
    requires g in {Daily, Hourly} && size > 0
    requires InKeyRange(g, n) && InKeyRange(g, n - (size - 1)) && InKeyRange(g, x)
    ensures Key(g, x) in MapPartition(TimeWindow(size, g), Key(g, n)) <==> n - (size - 1) <= x <= n
  {
    hide Key, MapPartition, Moves, OrdinalOf, YearOf, IsRepresentable;
    KeyRangeIsRepresentable(g, n);
    CanonicalKeyMoves(g, n);
    WindowKeys(Key(g, n), size, g);
    var window := MapPartition(TimeWindow(size, g), Key(g, n));
    if n - (size - 1) <= x <= n {
      assert window[n - x] == Key(g, x);
    }
    if Key(g, x) in window {
      var i :| 0 <= i < |window| && window[i] == Key(g, x);
      YearsFollowOrdinals(g, n - (size - 1), n - i);
      YearsFollowOrdinals(g, n - i, n);
      KeyOrder(g, n - i, x);
    }
  }

  /** The range of a window default holds exactly the windows of the downstream partitions from start
      to end. */
  lemma WindowRangeCoversWindows(size: u32, g: TimeGranularity, a: int, b: int, x: int)
    requires g in {Daily, Hourly} && size > 0 && a <= b
    requires InKeyRange(g, a - (size - 1)) && InKeyRange(g, b) && InKeyRange(g, x)
    ensures var (lo, hi) :=
              ResolveUpstreamRange(WithDefaultMapping(TimeWindow(size, g)), Key(g, a), Key(g, b), None, None);
            (!Less(Key(g, x), lo) && !Less(hi, Key(g, x)))
            <==> exists n :: a <= n <= b && Key(g, x) in MapPartition(TimeWindow(size, g), Key(g, n))
  {
    hide Key, Less, ResolveUpstreamRange, MapPartition, YearOf;
    YearsBetween(g, a - (size - 1), a, b);
    WindowDefaultRange(size, g, a, b);
    KeyOrder(g, x, a - (size - 1));
    KeyOrder(g, b, x);
    if a - (size - 1) <= x <= b {
      var n := if x < a then a else x;
      YearsBetween(g, a - (size - 1), n - (size - 1), b);
      InWindow(size, g, n, x);
      assert Key(g, x) in MapPartition(TimeWindow(size, g), Key(g, n));
    }
    forall n | a <= n <= b && Key(g, x) in MapPartition(TimeWindow(size, g), Key(g, n))
      ensures a - (size - 1) <= x <= b
    {
      YearsBetween(g, a - (size - 1), n, b);
      YearsBetween(g, a - (size - 1), n - (size - 1), b);
      InWindow(size, g, n, x);
    }
  }

  lemma YearsBetween(g: TimeGranularity, lo: int, n: int, hi: int)
    requires lo <= n <= hi && InKeyRange(g, lo) && InKeyRange(g, hi)
    ensures InKeyRange(g, n)
  {
    hide YearOf;
    YearsFollowOrdinals(g, lo, n);
    YearsFollowOrdinals(g, n, hi);
  }

  /** An offset default shifts both ends. */
  lemma OffsetDefaultRange(offset: i32, g: TimeGranularity, a: int, b: int)
    requires g in {Daily, Hourly} && InKeyRange(g, a) && InKeyRange(g, b)
    ensures ResolveUpstreamRange(WithDefaultMapping(TimeOffset(offset, g)), Key(g, a), Key(g, b), None, None)
         == (Key(g, a + offset), Key(g, b + offset))
  {
    hide Key, MapPartition, Moves, OrdinalOf, InKeyRange, IsRepresentable;
    OffsetOfCanonical(offset, g, a);
    OffsetOfCanonical(offset, g, b);
  }

  lemma OffsetOfCanonical(offset: i32, g: TimeGranularity, n: int)
    requires g in {Daily, Hourly} && InKeyRange(g, n)
    ensures MapPartition(TimeOffset(offset, g), Key(g, n)) == [Key(g, n + offset)]
  {
    hide Key, MapPartition, Moves, OrdinalOf, InKeyRange, IsRepresentable;
    KeyRangeIsRepresentable(g, n);
    CanonicalKeyMoves(g, n);
    OffsetKey(Key(g, n), offset, g);
  }

  /** The range of an offset default holds exactly the shifted partitions from start to end. */
  lemma OffsetRangeCoversOffsets(offset: i32, g: TimeGranularity, a: int, b: int, x: int)
    requires g in {Daily, Hourly} && a <= b && InKeyRange(g, a) && InKeyRange(g, b)
    requires InKeyRange(g, a + offset) && InKeyRange(g, b + offset) && InKeyRange(g, x)
    ensures var (lo, hi) :=
              ResolveUpstreamRange(WithDefaultMapping(TimeOffset(offset, g)), Key(g, a), Key(g, b), None, None);
            (!Less(Key(g, x), lo) && !Less(hi, Key(g, x)))
            <==> exists n :: a <= n <= b && MapPartition(TimeOffset(offset, g), Key(g, n)) == [Key(g, x)]
  {
    hide Key, Less, ResolveUpstreamRange, MapPartition, YearOf;
    OffsetDefaultRange(offset, g, a, b);
    KeyOrder(g, x, a + offset);
    KeyOrder(g, b + offset, x);
    if a + offset <= x <= b + offset {
      var n := x - offset;
      YearsBetween(g, a, n, b);
      OffsetOfCanonical(offset, g, n);
      assert MapPartition(TimeOffset(offset, g), Key(g, n)) == [Key(g, x)];
    }
    forall n | a <= n <= b && MapPartition(TimeOffset(offset, g), Key(g, n)) == [Key(g, x)]
      ensures a + offset <= x <= b + offset
    {
      YearsBetween(g, a, n, b);
      YearsBetween(g, a + offset, n + offset, b + offset);
      OffsetOfCanonical(offset, g, n);
      KeyOrder(g, n + offset, x);
    }
  }
}
