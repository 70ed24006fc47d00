/** The fixed layout of the 512 MiB data disk. */
module Geometry {
  import opened Results
  import opened Words

  const SECTORS_PER_CLUSTER: nat := 8
  const RESERVED_SECTORS: nat := 32
  const NUM_FATS: nat := 2
  const TOTAL_SECTORS: nat := 1_048_576
  const SECTORS_PER_FAT: nat := 1024
  const ROOT_CLUSTER: nat := 2
  const FAT_START_SECTOR: nat := RESERVED_SECTORS
  const DATA_START_SECTOR: nat := FAT_START_SECTOR + NUM_FATS * SECTORS_PER_FAT

  const CLUSTER_SIZE: nat := BYTES_PER_SECTOR * SECTORS_PER_CLUSTER

  /** Four-byte entries in one copy of the FAT, and in one of its sectors. */
  const ENTRIES_PER_SECTOR: nat := BYTES_PER_SECTOR / 4
  const FAT_ENTRIES: nat := SECTORS_PER_FAT * ENTRIES_PER_SECTOR

  const DATA_SECTORS: nat := TOTAL_SECTORS - DATA_START_SECTOR
  const TOTAL_CLUSTERS: nat := DATA_SECTORS / SECTORS_PER_CLUSTER
  /** Clusters are numbered from 2; this is the first number past the last cluster. */
  const CLUSTER_END: nat := 2 + TOTAL_CLUSTERS

  predicate ValidCluster(c: int) {
    2 <= c < CLUSTER_END
  }

  /** The first sector of a cluster, in checked u32 arithmetic. */
  function ClusterToSector(cluster: u32): (r: Result<u32>)
    ensures r.Failure? ==> r.error == ArithmeticPanic && !ValidCluster(cluster)
    ensures r.Failure? <==> cluster < 2 || DATA_START_SECTOR + (cluster - 2) * SECTORS_PER_CLUSTER >= 0x1_0000_0000
    ensures r.Success? ==>
      && DATA_START_SECTOR <= r.value <= 0x1_0000_0000 - SECTORS_PER_CLUSTER
      && 2 + (r.value - DATA_START_SECTOR) / SECTORS_PER_CLUSTER == cluster
      && (r.value - DATA_START_SECTOR) % SECTORS_PER_CLUSTER == 0
  {
    if cluster < 2 then Failure(ArithmeticPanic)
    else
      var sector := DATA_START_SECTOR + (cluster - 2) * SECTORS_PER_CLUSTER;
      if sector >= 0x1_0000_0000 then Failure(ArithmeticPanic) else Success(sector)
  }

  /** The clusters tile the data area: every data sector lies in exactly one cluster, and every
      cluster lies inside the data area. */
  lemma ClustersTileTheDataArea(sector: nat, c: u32, t: nat)
    requires t < SECTORS_PER_CLUSTER
    ensures ValidCluster(c) ==>
      ClusterToSector(c).Success? && DATA_START_SECTOR <= ClusterToSector(c).value + t < TOTAL_SECTORS
    ensures ClusterToSector(c) == Success(sector - t) && DATA_START_SECTOR <= sector < TOTAL_SECTORS <==>
      ValidCluster(c)
      && c == 2 + (sector - DATA_START_SECTOR) / SECTORS_PER_CLUSTER
      && t == (sector - DATA_START_SECTOR) % SECTORS_PER_CLUSTER
      && sector >= DATA_START_SECTOR
  {
  }

  /** Every cluster has an entry in both FAT copies, and the copies end where the data begins. */
  lemma FatCoversAllClusters()
    ensures CLUSTER_END <= FAT_ENTRIES
    ensures FAT_START_SECTOR + NUM_FATS * SECTORS_PER_FAT == DATA_START_SECTOR
    ensures TOTAL_CLUSTERS * SECTORS_PER_CLUSTER == DATA_SECTORS
  {
  }
}
