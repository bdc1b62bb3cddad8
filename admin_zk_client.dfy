/**
 * Topic creation through `AdminZkClient`: list the registered broker ids,
 * place the partitions with the replica assigner and write the placement
 * as a new persistent topic record.
 */
module Admin {
  import opened Wrappers
  import opened Decimal
  import opened Lists
  import opened Cluster
  import opened ReplicaAssigner
  import opened ZookeeperStore

  /** The exceptions `createTopic` lets through: the store's, or the assigner's validation failure. */
  datatype TopicError = StoreFailure(storeError: StoreError) | AssignmentFailure(assignError: AssignError)

  /** A broker-id list without repeats that lists exactly the ids of a set. */
  ghost predicate ListsExactly(brokerOrder: seq<Int32>, brokerIds: set<Int32>) {
    Distinct(brokerOrder) && Elements(brokerOrder) == brokerIds
  }

  /**
   * A placement made from the registered ids has one entry per partition,
   * numbered 0 .. nPartitions-1, and each entry names `replicationFactor`
   * different registered brokers.
   */
  lemma CreatedAssignmentValid(brokerIds: set<Int32>, brokerOrder: seq<Int32>, nPartitions: Int32,
                               replicationFactor: Int32, perm: seq<nat>, offsets: seq<nat>)
    requires ListsExactly(brokerOrder, brokerIds)
    requires AssignmentInputs(|brokerOrder|, nPartitions, replicationFactor, perm, offsets)
    requires replicationFactor <= |brokerOrder|
    ensures var a := Assignment(brokerOrder, nPartitions, replicationFactor, perm, offsets);
            && |a| == (if nPartitions > 0 then nPartitions as int else 0)
            && forall q :: 0 <= q < |a| ==>
                 && a[q].partitionId == q
                 && |a[q].brokerIds| == replicationFactor as int
                 && Distinct(a[q].brokerIds)
                 && Elements(a[q].brokerIds) <= brokerIds
  {
    AssignmentShape(brokerOrder, nPartitions, replicationFactor, perm, offsets);
    AssignmentReplicasValid(brokerOrder, nPartitions, replicationFactor, perm, offsets);
  }

  class AdminZkClient {
    const zookeeperClient: ZookeeperClient

    constructor (zookeeperClient: ZookeeperClient)
      ensures this.zookeeperClient == zookeeperClient
    {
      this.zookeeperClient := zookeeperClient;
    }

    /**
     * `createTopic` / `createTopicInZookeeper`. `perm` and `offsets` are the
     * assigner's random choices for as many brokers as are registered, needed
     * only once the broker listing succeeds and the assigner runs;
     * `brokerOrder` is the order in which the id set was copied into a list.
     * A missing broker directory, too few brokers and an existing topic each
     * fail and leave the topic table as it was.
     */
    method CreateTopic(topicName: string, noOfPartitions: Int32, replicationFactor: Int32,
                       perm: seq<nat>, offsets: seq<nat>)
      returns (r: Outcome<TopicError>, ghost brokerOrder: seq<Int32>)
      requires zookeeperClient.Valid() && IsNodeName(topicName)
      requires BrokerIdsPath in zookeeperClient.dirs ==>
                 AssignmentInputs(|zookeeperClient.brokers|, noOfPartitions, replicationFactor, perm, offsets)
      modifies zookeeperClient
      ensures zookeeperClient.Valid()
      ensures zookeeperClient.controller == old(zookeeperClient.controller)
      ensures zookeeperClient.brokers == old(zookeeperClient.brokers)
      ensures ListsExactly(brokerOrder, zookeeperClient.brokers.Keys) && |brokerOrder| == |zookeeperClient.brokers|
      ensures BrokerIdsPath !in old(zookeeperClient.dirs) ==>
                && r == Fail(StoreFailure(NoNode(BrokerIdsPath)))
                && zookeeperClient.topics == old(zookeeperClient.topics)
                && zookeeperClient.dirs == old(zookeeperClient.dirs)
      ensures BrokerIdsPath in old(zookeeperClient.dirs) && |zookeeperClient.brokers| < replicationFactor as int ==>
                && r == Fail(AssignmentFailure(NotEnoughBrokers(|zookeeperClient.brokers|, replicationFactor as int)))
                && zookeeperClient.topics == old(zookeeperClient.topics)
                && zookeeperClient.dirs == old(zookeeperClient.dirs)
      ensures BrokerIdsPath in old(zookeeperClient.dirs) && replicationFactor as int <= |zookeeperClient.brokers|
              && topicName in old(zookeeperClient.topics) ==>
                && r == Fail(StoreFailure(NodeExists(TopicPath(topicName))))
                && zookeeperClient.topics == old(zookeeperClient.topics)
                && zookeeperClient.dirs == old(zookeeperClient.dirs)
      ensures BrokerIdsPath in old(zookeeperClient.dirs) && replicationFactor as int <= |zookeeperClient.brokers|
              && topicName !in old(zookeeperClient.topics) ==>
                && r == Pass
                && zookeeperClient.topics == old(zookeeperClient.topics)[topicName :=
                     Assignment(brokerOrder, noOfPartitions, replicationFactor, perm, offsets)]
                && zookeeperClient.dirs == if BrokerTopicsPath in old(zookeeperClient.dirs)
                                           then old(zookeeperClient.dirs)
                                           else old(zookeeperClient.dirs) + DirAndAncestors(BrokerTopicsPath)
    {
      assert |zookeeperClient.brokers.Keys| == |zookeeperClient.brokers|;
      var listing := zookeeperClient.GetAllBrokerIds();
      if listing.Failure? {
        brokerOrder := [];
        r := Fail(StoreFailure(listing.error));
        assert zookeeperClient.brokers == map[];
        return;
      }
      var brokerIds := ToList(listing.value);
      brokerOrder := brokerIds;
      var partitionReplicas := AssignReplicasToBrokers(brokerIds, noOfPartitions, replicationFactor, perm, offsets);
      if partitionReplicas.Failure? {
        return Fail(AssignmentFailure(partitionReplicas.error)), brokerOrder;
      }
      var written := zookeeperClient.SetPartitionReplicasForTopic(topicName, partitionReplicas.value);
      if written.Fail? {
        return Fail(StoreFailure(written.error)), brokerOrder;
      }
      r := Pass;
    }
  }
}
