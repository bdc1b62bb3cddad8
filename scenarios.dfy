/**
 * End-to-end runs of the control plane on a fresh store, following the
 * repository's tests: elections by one and by several controllers, a
 * failover after the controller's session ends, topic creation seen by a
 * listener and by the controller, and broker membership changes.
 */
module Scenarios {
  import opened Wrappers
  import opened Decimal
  import opened Lists
  import opened Cluster
  import opened ReplicaAssigner
  import opened ZookeeperStore
  import opened Controller
  import opened Admin

  const Broker0: Broker := Broker(0, "10.10.10.10", 8000)
  const Broker1: Broker := Broker(1, "10.10.10.11", 8001)
  const Broker2: Broker := Broker(2, "10.10.10.12", 8002)

  /** Registers a broker whose id is still free: it is added, and the broker directory then exists. */
  method RegisterNew(zk: ZookeeperClient, broker: Broker)
    requires zk.Valid() && broker.id !in zk.brokers
    modifies zk
    ensures zk.Valid() && BrokerIdsPath in zk.dirs
    ensures zk.controller == old(zk.controller) && zk.topics == old(zk.topics)
    ensures zk.brokers == old(zk.brokers)[broker.id := broker]
  {
    var registered := zk.RegisterBroker(broker);
  }

  /** A store holding the three test brokers. */
  method ThreeBrokerStore() returns (zk: ZookeeperClient)
    ensures fresh(zk) && zk.Valid()
    ensures zk.controller == None && zk.topics == map[]
    ensures zk.brokers == map[0 := Broker0, 1 := Broker1, 2 := Broker2]
    ensures BrokerIdsPath in zk.dirs
  {
    zk := new ZookeeperClient();
    RegisterNew(zk, Broker0);
    RegisterNew(zk, Broker1);
    RegisterNew(zk, Broker2);
  }

  /** A single registered broker elects itself and reports its own id as leader. */
  method SingleNodeBecomesController(broker: Broker) returns (leader: Int32)
    ensures leader == broker.id
  {
    var zk := new ZookeeperClient();
    var registered := zk.RegisterBroker(broker);
    var controller := new ZkController(zk, broker.id);
    var elected := controller.Elect();
    leader := controller.GetCurrentLeaderId();
  }

  /** A fresh store with `broker` registered, and controller `id` elected over it. */
  method FirstElected(broker: Broker, id: Int32) returns (zk: ZookeeperClient, zkController: ZkController)
    ensures fresh(zk) && fresh(zkController) && zkController.zookeeperClient == zk && zk.Valid()
    ensures zkController.brokerId == id
    ensures zkController.currentLeader == id && zk.ControllerId() == Some(id)
  {
    zk := new ZookeeperClient();
    var registered := zk.RegisterBroker(broker);
    zkController := new ZkController(zk, id);
    var elected := zkController.Elect();
    ParseIntOfIntToString(id);
  }

  /** Controller `id` elects over a store that already has a controller record: it follows that record. */
  method Follower(zk: ZookeeperClient, id: Int32) returns (zkController: ZkController)
    requires zk.Valid() && zk.controller.Some?
    modifies zk
    ensures fresh(zkController) && zkController.zookeeperClient == zk && zk.Valid()
    ensures zkController.brokerId == id
    ensures zk.controller == old(zk.controller)
    ensures Some(zkController.currentLeader) == zk.ControllerId()
  {
    zkController := new ZkController(zk, id);
    var elected := zkController.Elect();
  }

  /** Controllers 1, 2 and 3 elect in turn: the first wins and all three report it. */
  method ForMultipleNodesOnlyOneBecomesController(broker: Broker) returns (leaders: seq<Int32>)
    ensures leaders == [1, 1, 1]
  {
    var zk, zkController1 := FirstElected(broker, 1);
    var zkController2 := Follower(zk, 2);
    var zkController3 := Follower(zk, 3);
    leaders := [zkController1.GetCurrentLeaderId(), zkController2.GetCurrentLeaderId(),
                zkController3.GetCurrentLeaderId()];
  }

  /**
   * Controller `zkController` is told the controller record was deleted and
   * elects again: with no record it takes over, otherwise it follows the
   * record it finds.
   */
  method HearDeletion(zkController: ZkController)
    requires zkController.zookeeperClient.Valid()
    modifies zkController, zkController.zookeeperClient
    ensures zkController.zookeeperClient.Valid()
    ensures old(zkController.zookeeperClient.controller).None? ==>
              && zkController.currentLeader == zkController.brokerId
              && zkController.zookeeperClient.ControllerId() == Some(zkController.brokerId)
    ensures old(zkController.zookeeperClient.controller).Some? ==>
              && zkController.zookeeperClient.controller == old(zkController.zookeeperClient.controller)
              && Some(zkController.currentLeader) == zkController.zookeeperClient.ControllerId()
  {
    var reelected := zkController.HandleDataDeleted();
    ParseIntOfIntToString(zkController.brokerId);
  }

  /**
   * Controllers 1 and 2 elect; then the session holding the controller
   * record ends, and both are told the record was deleted. Controller 2
   * hears first and takes over; controller 1 then follows it.
   */
  method ControllerFailover(broker: Broker) returns (before: seq<Int32>, after: seq<Int32>)
    ensures before == [1, 1] && after == [2, 2]
  {
    var zk, zkController1 := FirstElected(broker, 1);
    var zkController2 := Follower(zk, 2);
    before := [zkController1.GetCurrentLeaderId(), zkController2.GetCurrentLeaderId()];
    zk.ExpireSession();
    HearDeletion(zkController2);
    HearDeletion(zkController1);
    after := [zkController1.GetCurrentLeaderId(), zkController2.GetCurrentLeaderId()];
  }

  /** Facts about "topic1" the scenarios below need. */
  lemma Topic1IsNodeName()
    ensures IsNodeName("topic1")
  {
    assert "topic1"[0] != '/' && "topic1"[1] != '/' && "topic1"[2] != '/';
    assert "topic1"[3] != '/' && "topic1"[4] != '/' && "topic1"[5] != '/';
  }

  /** Each of the partitions of "topic1" names three different brokers among 0, 1 and 2. */
  ghost predicate ValidTopic1(topics: TopicAssignments)
    requires "topic1" in topics
  {
    && |topics["topic1"]| == 2
    && forall q :: 0 <= q < 2 ==>
         && topics["topic1"][q].partitionId == q
         && |topics["topic1"][q].brokerIds| == 3
         && Distinct(topics["topic1"][q].brokerIds)
         && Elements(topics["topic1"][q].brokerIds) <= {0, 1, 2}
  }

  /** `createTopic("topic1", 2, 3)` on a store holding the three test brokers and no topic. */
  method CreateTopic1(zk: ZookeeperClient, perm: seq<nat>, offsets: seq<nat>)
    requires zk.Valid() && zk.topics == map[] && BrokerIdsPath in zk.dirs
    requires zk.brokers == map[0 := Broker0, 1 := Broker1, 2 := Broker2]
    requires IsPermutation(perm, 3) && IsOffsetStream(offsets, 3) && 2 <= |offsets|
    modifies zk
    ensures zk.Valid() && zk.controller == old(zk.controller) && zk.brokers == old(zk.brokers)
    ensures BrokerTopicsPath in zk.dirs && zk.topics.Keys == {"topic1"} && ValidTopic1(zk.topics)
  {
    Topic1IsNodeName();
    assert |zk.brokers| == 3 by {
      assert zk.brokers.Keys == {0, 1, 2};
    }
    var admin := new AdminZkClient(zk);
    var created, brokerOrder := admin.CreateTopic("topic1", 2, 3, perm, offsets);
    CreatedAssignmentValid(zk.brokers.Keys, brokerOrder, 2, 3, perm, offsets);
    DirAndAncestorsOfTopics();
  }

  /**
   * `createTopic("topic1", 1, 0)` on a store where no broker ever
   * registered: listing the broker directory fails with no-node before the
   * assigner runs, so no random choices are needed and nothing is written.
   */
  method CreateTopicWithoutBrokers() returns (r: Outcome<TopicError>, topics: TopicAssignments)
    ensures r == Fail(StoreFailure(NoNode(BrokerIdsPath))) && topics == map[]
  {
    var zk := new ZookeeperClient();
    Topic1IsNodeName();
    var admin := new AdminZkClient(zk);
    var created, brokerOrder := admin.CreateTopic("topic1", 1, 0, [], []);
    r, topics := created, zk.topics;
  }

  /** Creating the topic directory creates it. */
  lemma DirAndAncestorsOfTopics()
    ensures BrokerTopicsPath in DirAndAncestors(BrokerTopicsPath)
  {
  }

  /**
   * `createTopic("topic1", 2, 3)` over brokers 0, 1 and 2, whatever the
   * random choices: a listener that merges the topic table into an empty
   * map holds exactly "topic1", with two partitions of three distinct
   * registered brokers each.
   */
  method CreatedTopicIsListed(perm: seq<nat>, offsets: seq<nat>) returns (allTopics: TopicAssignments)
    requires IsPermutation(perm, 3) && IsOffsetStream(offsets, 3) && 2 <= |offsets|
    ensures allTopics.Keys == {"topic1"} && ValidTopic1(allTopics)
  {
    var zk := ThreeBrokerStore();
    CreateTopic1(zk, perm, offsets);
    var read := zk.GetAllTopics();
    allTopics := map[];
    allTopics := allTopics + read.value;
  }

  /** A controller elected over the three test brokers, watching the topic directory. */
  method ThreeBrokerController(controllerId: Int32) returns (zk: ZookeeperClient, zkController: ZkController)
    ensures fresh(zk) && fresh(zkController) && zkController.zookeeperClient == zk && zk.Valid()
    ensures zk.topics == map[] && BrokerIdsPath in zk.dirs
    ensures zk.brokers == map[0 := Broker0, 1 := Broker1, 2 := Broker2]
    ensures zkController.watchingTopics && zkController.allTopics == map[]
  {
    zk := ThreeBrokerStore();
    zkController := new ZkController(zk, controllerId);
    var elected := zkController.Elect();
  }

  /**
   * The same creation with a controller elected first: the controller has
   * subscribed to the topic directory, and the notification leaves exactly
   * "topic1" in its topic cache, with the placement that was written.
   */
  method ControllerSeesCreatedTopic(controllerId: Int32, perm: seq<nat>, offsets: seq<nat>)
    returns (watching: bool, topics: TopicAssignments)
    requires IsPermutation(perm, 3) && IsOffsetStream(offsets, 3) && 2 <= |offsets|
    ensures watching
    ensures topics.Keys == {"topic1"} && ValidTopic1(topics)
  {
    var zk, zkController := ThreeBrokerController(controllerId);
    watching := zkController.watchingTopics;
    CreateTopic1(zk, perm, offsets);
    var changed := zkController.HandleTopicChange();
    topics := zkController.GetAllTopics();
  }

  /** A controller elected over a store holding brokers 0 and 1, with both loaded. */
  method TwoBrokerController(controllerId: Int32) returns (zk: ZookeeperClient, zkController: ZkController)
    ensures fresh(zk) && fresh(zkController) && zkController.zookeeperClient == zk && zk.Valid()
    ensures zk.brokers == map[0 := Broker0, 1 := Broker1]
    ensures Elements(zkController.liveBrokers) == {Broker0, Broker1}
  {
    zk := new ZookeeperClient();
    var registered := zk.RegisterBroker(Broker0);
    registered := zk.RegisterBroker(Broker1);
    zkController := new ZkController(zk, controllerId);
    var elected := zkController.Elect();
    TwoBrokerValues();
  }

  lemma ThreeBrokerValues()
    ensures map[0 := Broker0, 1 := Broker1, 2 := Broker2].Values == {Broker0, Broker1, Broker2}
  {
    var m := map[0 := Broker0, 1 := Broker1, 2 := Broker2];
    assert m[0] == Broker0 && m[1] == Broker1 && m[2] == Broker2;
  }

  lemma TwoBrokerValues()
    ensures map[0 := Broker0, 1 := Broker1].Values == {Broker0, Broker1}
  {
    var m := map[0 := Broker0, 1 := Broker1];
    assert m[0] == Broker0 && m[1] == Broker1;
  }

  /**
   * Broker 2 joins a cluster of brokers 0 and 1 after the controller loaded
   * them: the first notification reports broker 2 as added and nothing
   * removed; a second notification with no change reports nothing.
   */
  method MembershipChangeReported(controllerId: Int32) returns (first: MembershipChange, second: MembershipChange)
    ensures Elements(first.added) == {Broker2} && first.removed == []
    ensures second == MembershipChange([], [])
  {
    var zk, zkController := TwoBrokerController(controllerId);
    var loaded := zkController.liveBrokers;
    var registered := zk.RegisterBroker(Broker2);
    ThreeBrokerValues();
    var change := zkController.HandleBrokerMembershipChange();
    var current := zkController.liveBrokers;
    first := change.value;
    JoinReported(loaded, current);
    change := zkController.HandleBrokerMembershipChange();
    second := change.value;
    SameBrokersNoChange(zkController.liveBrokers, current);
  }

  /** The diff between a listing of brokers 0 and 1 and one of brokers 0, 1 and 2. */
  lemma JoinReported(loaded: seq<Broker>, current: seq<Broker>)
    requires Elements(loaded) == {Broker0, Broker1}
    requires Elements(current) == {Broker0, Broker1, Broker2}
    ensures Elements(Missing(current, loaded)) == {Broker2}
    ensures Missing(loaded, current) == []
  {
    assert forall k :: 0 <= k < |loaded| ==> loaded[k] in Elements(loaded);
    assert 2 !in Ids(loaded);
    assert Broker0 in Elements(loaded) && Broker1 in Elements(loaded) && Broker2 in Elements(current);
    IdOfMember(Broker0, loaded);
    IdOfMember(Broker1, loaded);
    MissingMembers(current, loaded);
    forall b ensures b in Elements(Missing(current, loaded)) <==> b == Broker2 {
      if b in Missing(current, loaded) {
        assert b in Elements(current);
      }
    }
    forall b | b in loaded ensures b.id in Ids(current) {
      assert b in Elements(loaded);
      assert b in Elements(current);
      IdOfMember(b, current);
    }
    MissingEmpty(loaded, current);
  }
}
