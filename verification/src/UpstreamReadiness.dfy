/** Whether the upstream partitions that a partition needs are completed
    (`resolve_upstream_partitions` and `check_upstream_ready` of
    servo-runtime/src/backfill_executor.rs). */
module UpstreamReadiness {
  import opened Wrappers
  import opened Assets
  import opened Text
  import opened PartitionKeys
  import opened PartitionMapping
  import opened PartitionResolver

  datatype UpstreamInfo = UpstreamInfo(assetId: AssetId, partitionConfig: Option<PartitionConfig>)

  /** The upstream assets of a job, by name. */
  type DependencyCache = map<string, UpstreamInfo>

  /** The completed partitions of all jobs. */
  type Completed = set<(AssetId, string)>

  /** Every partition that the key needs of the upstream asset is completed. */
  ghost predicate HasUpstream(key: string, config: Option<PartitionConfig>, info: UpstreamInfo, completed: Completed) {
    forall k :: k in RequiredKeys(key, info.partitionConfig, config) ==> (info.assetId, k) in completed
  }

  ghost predicate IsReady(key: string, config: Option<PartitionConfig>, cache: DependencyCache, completed: Completed) {
    forall name :: name in cache ==> HasUpstream(key, config, cache[name], completed)
  }

  /** The required keys of each upstream asset; a hash map is iterated in arbitrary order. */
  method ResolveUpstreamPartitions(key: string, config: Option<PartitionConfig>, cache: DependencyCache)
    returns (r: map<string, seq<string>>)
    ensures r.Keys == cache.Keys
    ensures forall name :: name in cache ==> r[name] == RequiredKeys(key, cache[name].partitionConfig, config)
  {
    hide InferMapping, MapPartition;
    r := map[];
    var names := cache.Keys;
    while names != {}
      invariant names <= cache.Keys && r.Keys == cache.Keys - names
      invariant forall name :: name in r ==> r[name] == RequiredKeys(key, cache[name].partitionConfig, config)
      decreases names
    {
      var name :| name in names;
      var up := cache[name].partitionConfig;
      var upstreamKeys := [key];
      if up.Some? && config.Some? {
        var inferred := InferMapping(up.value.partitionType, config.value.partitionType);
        if inferred.Ok? {
          upstreamKeys := MapPartition(inferred.value, key);
        }
      }
      r := r[name := upstreamKeys];
      names := names - {name};
    }
  }

  /** Ready exactly if every required partition of every upstream asset is completed; without
      a cache, or with an empty one, always. */
  method CheckUpstreamReady(key: string, config: Option<PartitionConfig>, cache: Option<DependencyCache>,
                            completed: Completed)
    returns (ready: bool)
    ensures ready <==> (cache.None? || IsReady(key, config, cache.value, completed))
  {
    hide RequiredKeys;
    if cache.None? || cache.value == map[] {
      return true;
    }
    var upstream := ResolveUpstreamPartitions(key, config, cache.value);
    var names := cache.value.Keys;
    while names != {}
      invariant names <= cache.value.Keys
      invariant forall name :: name in cache.value.Keys - names ==>
                  HasUpstream(key, config, cache.value[name], completed)
      decreases names
    {
      var name :| name in names;
      var keys := upstream[name];
      for i := 0 to |keys|
        invariant forall k :: k in keys[..i] ==> (cache.value[name].assetId, k) in completed
      {
        if (cache.value[name].assetId, keys[i]) !in completed {
          assert !HasUpstream(key, config, cache.value[name], completed);
          return false;
        }
        assert keys[..i + 1] == keys[..i] + [keys[i]];
      }
      assert keys[..|keys|] == keys;
      names := names - {name};
    }
    return true;
  }

  /** The upstream keys, as strings, from one to the other are completed. */
  ghost predicate RangeCompleted(up: TimeGranularity, lo: string, hi: string, asset: AssetId, completed: Completed) {
    forall x :: InKeyRange(up, x) && !Less(Key(up, x), lo) && !Less(hi, Key(up, x)) ==> (asset, Key(up, x)) in completed
  }

  ghost predicate AllHaveUpstream(down: TimeGranularity, a: int, b: int, config: Option<PartitionConfig>,
                                  info: UpstreamInfo, completed: Completed)
  {
    forall n :: a <= n <= b ==> HasUpstream(Key(down, n), config, info, completed)
  }

  /** The resolved range is what makes the downstream partitions from start to end ready: all of its
      partitions are completed, by whatever job, if and only if every one of those finds its
      upstream completed. */
  lemma CompletedRangeMakesReady(up: TimeGranularity, down: TimeGranularity, a: int, b: int, info: UpstreamInfo,
                                 config: Option<PartitionConfig>, r: Resolver, completed: Completed)
    requires Compatible(up, down) && IsTime(info.partitionConfig, up) && IsTime(config, down)
    requires a <= b && InKeyRange(down, a) && InKeyRange(down, b)
    requires InKeyRange(up, First(up, down, a)) && InKeyRange(up, First(up, down, b + 1) - 1)
    ensures var (lo, hi) := ResolveUpstreamRange(r, Key(down, a), Key(down, b), info.partitionConfig, config);
            RangeCompleted(up, lo, hi, info.assetId, completed)
            <==> AllHaveUpstream(down, a, b, config, info, completed)
  {
    hide Key, Less, ResolveUpstreamRange, RequiredKeys, Start, InKeyRange;
    var (lo, hi) := ResolveUpstreamRange(r, Key(down, a), Key(down, b), info.partitionConfig, config);
    if RangeCompleted(up, lo, hi, info.assetId, completed) {
      forall n, k | a <= n <= b && k in RequiredKeys(Key(down, n), info.partitionConfig, config)
        ensures (info.assetId, k) in completed
      {
        var x := RequiredKeyIsCanonical(up, down, a, b, n, info.partitionConfig, config, k);
        RangeCoversRequiredKeys(up, down, a, b, x, info.partitionConfig, config, r);
      }
    }
    if AllHaveUpstream(down, a, b, config, info, completed) {
      forall x | InKeyRange(up, x) && !Less(Key(up, x), lo) && !Less(hi, Key(up, x))
        ensures (info.assetId, Key(up, x)) in completed
      {
        RangeCoversRequiredKeys(up, down, a, b, x, info.partitionConfig, config, r);
        var n :| a <= n <= b && Key(up, x) in RequiredKeys(Key(down, n), info.partitionConfig, config);
        assert HasUpstream(Key(down, n), config, info, completed);
      }
    }
  }

  lemma RequiredKeyIsCanonical(up: TimeGranularity, down: TimeGranularity, a: int, b: int, n: int,
                               upConfig: Option<PartitionConfig>, downConfig: Option<PartitionConfig>, k: string)
    returns (x: int)
    requires Compatible(up, down) && IsTime(upConfig, up) && IsTime(downConfig, down)
    requires a <= n <= b && InKeyRange(down, a) && InKeyRange(down, b)
    requires InKeyRange(up, First(up, down, a)) && InKeyRange(up, First(up, down, b + 1) - 1)
    requires k in RequiredKeys(Key(down, n), upConfig, downConfig)
    ensures k == Key(up, x) && InKeyRange(up, x)
  {
    hide Key, Start, YearOf, RequiredKeys;
    YearsFollowOrdinals(down, a, n);
    YearsFollowOrdinals(down, n, b);
    RequiredIsInterval(up, down, n, upConfig, downConfig);
    var lo, hi := First(up, down, n), First(up, down, n + 1);
    KeysAt(up, lo, hi);
    FirstIncreases(up, down, a, n);
    FirstIncreases(up, down, n + 1, b + 1);
    var i :| 0 <= i < |Keys(up, lo, hi)| && Keys(up, lo, hi)[i] == k;
    x := lo + i;
    YearsFollowOrdinals(up, First(up, down, a), x);
    YearsFollowOrdinals(up, x, First(up, down, b + 1) - 1);
  }
}
