/** The values the control plane stores and passes around. */
module Cluster {
  import opened Decimal

  /** A broker's registration: a Java record, so equality is by all three parts. */
  datatype Broker = Broker(id: Int32, host: string, port: Int32)

  /**
   * The placement of one partition: the brokers holding its replicas, the
   * first of them the preferred leader.
   */
  datatype PartitionReplicas = PartitionReplicas(partitionId: Int32, brokerIds: seq<Int32>)

  /** Topic name to the placement of its partitions, in partition-id order. */
  type TopicAssignments = map<string, seq<PartitionReplicas>>
}
