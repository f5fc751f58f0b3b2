/** Assets, their dependencies and their partition configuration
    (servo-core/src/asset.rs). */
module Assets {
  import opened Wrappers

  datatype AssetId = AssetId(uuid: nat)

  datatype DependencyType = Data | Metadata | Control

  datatype AssetDependency = AssetDependency(upstreamAssetId: AssetId, dependencyType: DependencyType)

  datatype TimeGranularity = Hourly | Daily | Weekly | Monthly | Yearly

  datatype PartitionType =
    | Time(granularity: TimeGranularity)
    | Custom(expression: string)
    | Range(lowerBound: string, upperBound: string)

  datatype PartitionConfig = PartitionConfig(partitionType: PartitionType, partitionKey: string)

  /** Of the asset's metadata only the partition configuration is kept. */
  datatype Asset = Asset(
    id: AssetId,
    name: string,
    partition: Option<PartitionConfig>,
    dependencies: seq<AssetDependency>)
}
