/**
 * The controller of `ZkController`: the election through the controller
 * record, the broker list a controller loads when it wins, the diff it
 * reports when broker membership changes, and the topic cache it merges
 * the topic table into when the topic directory changes.
 *
 * Watches are modelled as flags saying which of the store's paths this
 * controller has subscribed to; a notification is the caller invoking the
 * matching handler.
 */
module Controller {
  import opened Wrappers
  import opened Decimal
  import opened Lists
  import opened Cluster
  import opened ZookeeperStore

  /** The ids of a broker list, position by position. */
  function Ids(bs: seq<Broker>): (ids: seq<Int32>) {
    seq(|bs|, k requires 0 <= k < |bs| => bs[k].id)
  }

  /**
   * The brokers of `xs`, in `xs`'s order, whose id no broker of `ys`
   * carries: the brokers added (`xs` new, `ys` old) or removed (`xs` old,
   * `ys` new) in `handleBrokerMembershipChange`.
   */
  function Missing(xs: seq<Broker>, ys: seq<Broker>): (missing: seq<Broker>) {
    if xs == [] then []
    else if xs[|xs| - 1].id in Ids(ys) then Missing(xs[..|xs| - 1], ys)
    else Missing(xs[..|xs| - 1], ys) + [xs[|xs| - 1]]
  }

  /** A broker is reported exactly when it is in `xs` and its id is in no broker of `ys`. */
  lemma {:induction false} MissingMembers(xs: seq<Broker>, ys: seq<Broker>)
    ensures forall b :: b in Missing(xs, ys) <==> b in xs && b.id !in Ids(ys)
  {
    if xs != [] {
      var init := xs[..|xs| - 1];
      MissingMembers(init, ys);
      assert xs == init + [xs[|xs| - 1]];
    }
  }

  /** Nothing is reported exactly when every broker of `xs` has its id in `ys`. */
  lemma MissingEmpty(xs: seq<Broker>, ys: seq<Broker>)
    ensures Missing(xs, ys) == [] <==> forall b :: b in xs ==> b.id in Ids(ys)
  {
    MissingMembers(xs, ys);
    if Missing(xs, ys) != [] {
      assert Missing(xs, ys)[0] in Missing(xs, ys);
    }
  }

  /** A report taken from a list without repeats has no repeats. */
  lemma {:induction false} MissingDistinct(xs: seq<Broker>, ys: seq<Broker>)
    requires Distinct(xs)
    ensures Distinct(Missing(xs, ys))
  {
    if xs != [] {
      var init := xs[..|xs| - 1];
      var last := xs[|xs| - 1];
      assert Distinct(init) by {
        forall i, j | 0 <= i < j < |init| ensures init[i] != init[j] {
          assert init[i] == xs[i] && init[j] == xs[j];
        }
      }
      MissingDistinct(init, ys);
      MissingMembers(init, ys);
      assert last !in init by {
        forall i | 0 <= i < |init| ensures init[i] != last {
          assert init[i] == xs[i];
        }
      }
    }
  }

  /** A listed broker's id is among the listing's ids. */
  lemma IdOfMember(b: Broker, bs: seq<Broker>)
    requires b in bs
    ensures b.id in Ids(bs)
  {
    var k :| 0 <= k < |bs| && bs[k] == b;
    assert Ids(bs)[k] == b.id;
  }

  /**
   * Two listings with the same brokers, in whatever order, report nothing
   * either way: a notification that changes no membership yields empty diffs.
   */
  lemma SameBrokersNoChange(xs: seq<Broker>, ys: seq<Broker>)
    requires Elements(xs) == Elements(ys)
    ensures Missing(xs, ys) == [] && Missing(ys, xs) == []
  {
    forall b | b in xs ensures b.id in Ids(ys) {
      assert b in Elements(xs);
      IdOfMember(b, ys);
    }
    forall b | b in ys ensures b.id in Ids(xs) {
      assert b in Elements(ys);
      IdOfMember(b, xs);
    }
    MissingEmpty(xs, ys);
    MissingEmpty(ys, xs);
  }

  /** The two nested loops of `handleBrokerMembershipChange`, with the `found` flag and `break`. */
  method BrokersMissingFrom(xs: seq<Broker>, ys: seq<Broker>) returns (missing: seq<Broker>)
    ensures missing == Missing(xs, ys)
  {
    missing := [];
    var i := 0;
    while i < |xs|
      invariant 0 <= i <= |xs|
      invariant missing == Missing(xs[..i], ys)
    {
      var found := false;
      var j := 0;
      while j < |ys|
        invariant 0 <= j <= |ys|
        invariant !found
        invariant forall k :: 0 <= k < j ==> ys[k].id != xs[i].id
      {
        if ys[j].id == xs[i].id {
          assert Ids(ys)[j] == xs[i].id;
          found := true;
          break;
        }
        j := j + 1;
      }
      assert found <==> xs[i].id in Ids(ys);
      if !found {
        missing := missing + [xs[i]];
      }
      assert xs[..i + 1][..i] == xs[..i];
      i := i + 1;
    }
    assert xs[..|xs|] == xs;
  }

  /** The brokers `handleBrokerMembershipChange` reports as added and as removed. */
  datatype MembershipChange = MembershipChange(added: seq<Broker>, removed: seq<Broker>)

  class ZkController {
    const zookeeperClient: ZookeeperClient
    const brokerId: Int32
    /** The controller this broker last learned of, -1 before any election. */
    var currentLeader: Int32
    var liveBrokers: seq<Broker>
    var allTopics: TopicAssignments
    /** Subscriptions on the controller record, the broker directory and the topic directory. */
    var watchingController: bool
    var watchingBrokers: bool
    var watchingTopics: bool

    constructor (zookeeperClient: ZookeeperClient, brokerId: Int32)
      ensures this.zookeeperClient == zookeeperClient && this.brokerId == brokerId
      ensures currentLeader == -1 && liveBrokers == [] && allTopics == map[]
      ensures !watchingController && !watchingBrokers && !watchingTopics
    {
      this.zookeeperClient := zookeeperClient;
      this.brokerId := brokerId;
      currentLeader := -1;
      liveBrokers := [];
      allTopics := map[];
      watchingController := false;
      watchingBrokers := false;
      watchingTopics := false;
    }

    /** The leader the last election recorded, -1 before any. */
    function GetCurrentLeaderId(): (leaderId: Int32)
      reads this
      ensures leaderId == currentLeader
    {
      currentLeader
    }

    /** The topic cache as the topic handler last merged it. */
    function GetAllTopics(): (topics: TopicAssignments)
      reads this
      ensures topics == allTopics
    {
      allTopics
    }

    /**
     * What one `elect` does to this controller and the store. With no
     * controller record, this broker writes its own id, takes itself as
     * leader and loads the broker list, which fails when the broker
     * directory is missing. With a record, it takes the recorded id as
     * leader and changes nothing else. Brokers, topics and directories are
     * never touched, nor the topic cache.
     */
    twostate predicate ElectionStep(new r: Outcome<StoreError>)
      reads this, zookeeperClient
    {
      && zookeeperClient.brokers == old(zookeeperClient.brokers)
      && zookeeperClient.topics == old(zookeeperClient.topics)
      && zookeeperClient.dirs == old(zookeeperClient.dirs)
      && allTopics == old(allTopics)
      && if old(zookeeperClient.controller).None? then
           && zookeeperClient.controller == Some(IntToString(brokerId))
           && currentLeader == brokerId
           && if BrokerIdsPath in zookeeperClient.dirs then
                && r == Pass
                && Elements(liveBrokers) == zookeeperClient.brokers.Values && Distinct(liveBrokers)
                && watchingBrokers && watchingTopics
              else
                && r == Fail(NoNode(BrokerIdsPath))
                && liveBrokers == old(liveBrokers)
                && watchingBrokers == old(watchingBrokers) && watchingTopics == old(watchingTopics)
         else
           && zookeeperClient.controller == old(zookeeperClient.controller)
           && Some(currentLeader) == old(zookeeperClient.ControllerId())
           && r == Pass
           && liveBrokers == old(liveBrokers)
           && watchingBrokers == old(watchingBrokers) && watchingTopics == old(watchingTopics)
    }

    /** `startup`: an election, then (unless it failed) the watch on the controller record. */
    method Startup() returns (r: Outcome<StoreError>)
      requires zookeeperClient.Valid()
      modifies this, zookeeperClient
      ensures zookeeperClient.Valid()
      ensures ElectionStep(r)
      ensures watchingController == (old(watchingController) || r.Pass?)
    {
      r := Elect();
      if r.Fail? {
        return;
      }
      // subscribeControllerChangeListener
      watchingController := true;
    }

    /** `elect`: try to create the controller record; becoming controller or following the recorded one. */
    method Elect() returns (r: Outcome<StoreError>)
      requires zookeeperClient.Valid()
      modifies this, zookeeperClient
      ensures zookeeperClient.Valid()
      ensures ElectionStep(r)
      ensures watchingController == old(watchingController)
    {
      var election := zookeeperClient.TryCreatingControllerPath(brokerId);
      match election
      case Elected =>
        currentLeader := brokerId;
        r := OnBecomingController();
      case ControllerExists(controllerId) =>
        currentLeader := controllerId;
        r := Pass;
    }

    /** `onBecomingController`: load the live brokers, then watch the broker and topic directories. */
    method OnBecomingController() returns (r: Outcome<StoreError>)
      requires zookeeperClient.Valid()
      modifies this`liveBrokers, this`watchingBrokers, this`watchingTopics
      ensures BrokerIdsPath in zookeeperClient.dirs ==>
                && r == Pass
                && Elements(liveBrokers) == zookeeperClient.brokers.Values && Distinct(liveBrokers)
                && watchingBrokers && watchingTopics
      ensures BrokerIdsPath !in zookeeperClient.dirs ==>
                && r == Fail(NoNode(BrokerIdsPath))
                && liveBrokers == old(liveBrokers)
                && watchingBrokers == old(watchingBrokers) && watchingTopics == old(watchingTopics)
    {
      var allBrokers := zookeeperClient.GetAllBrokers();
      if allBrokers.Failure? {
        return Fail(allBrokers.error);
      }
      var currentBrokers := ToList(allBrokers.value);
      liveBrokers := currentBrokers;
      watchingBrokers := true;
      watchingTopics := true;
      r := Pass;
    }

    /**
     * `handleBrokerMembershipChange`: re-read the registered brokers, report
     * those whose id is new and those whose id is gone, and replace the
     * live list.
     */
    method HandleBrokerMembershipChange() returns (r: Result<MembershipChange, StoreError>)
      requires zookeeperClient.Valid()
      modifies this`liveBrokers
      ensures BrokerIdsPath !in zookeeperClient.dirs ==>
                r == Failure(NoNode(BrokerIdsPath)) && liveBrokers == old(liveBrokers)
      ensures BrokerIdsPath in zookeeperClient.dirs ==>
                && Elements(liveBrokers) == zookeeperClient.brokers.Values && Distinct(liveBrokers)
                && r == Success(MembershipChange(Missing(liveBrokers, old(liveBrokers)),
                                                 Missing(old(liveBrokers), liveBrokers)))
    {
      var allBrokers := zookeeperClient.GetAllBrokers();
      if allBrokers.Failure? {
        return Failure(allBrokers.error);
      }
      var newBrokerList := ToList(allBrokers.value);
      var addedBrokers := BrokersMissingFrom(newBrokerList, liveBrokers);
      var removedBrokers := BrokersMissingFrom(liveBrokers, newBrokerList);
      liveBrokers := newBrokerList;
      r := Success(MembershipChange(addedBrokers, removedBrokers));
    }

    /**
     * `handleTopicChange`: merge the topic table over the cache (`putAll`):
     * every stored topic takes its stored assignment and cached topics
     * the table lacks are kept. A failed read is caught and changes nothing;
     * the error is returned in place of the message the source prints.
     */
    method HandleTopicChange() returns (r: Outcome<StoreError>)
      requires zookeeperClient.Valid()
      modifies this`allTopics
      ensures BrokerTopicsPath !in zookeeperClient.dirs ==>
                r == Fail(NoNode(BrokerTopicsPath)) && allTopics == old(allTopics)
      ensures BrokerTopicsPath in zookeeperClient.dirs ==>
                && r == Pass
                && allTopics.Keys == old(allTopics).Keys + zookeeperClient.topics.Keys
                && (forall t :: t in zookeeperClient.topics ==> allTopics[t] == zookeeperClient.topics[t])
                && (forall t :: t in old(allTopics) && t !in zookeeperClient.topics ==>
                                  allTopics[t] == old(allTopics)[t])
    {
      var read := zookeeperClient.GetAllTopics();
      if read.Failure? {
        return Fail(read.error);
      }
      allTopics := allTopics + read.value;
      r := Pass;
    }

    /** `handleDataChange` on the controller record: elect again. */
    method HandleDataChange() returns (r: Outcome<StoreError>)
      requires zookeeperClient.Valid()
      modifies this, zookeeperClient
      ensures zookeeperClient.Valid()
      ensures ElectionStep(r)
      ensures watchingController == old(watchingController)
    {
      r := Elect();
    }

    /** `handleDataDeleted` on the controller record: the controller is gone, elect again. */
    method HandleDataDeleted() returns (r: Outcome<StoreError>)
      requires zookeeperClient.Valid()
      modifies this, zookeeperClient
      ensures zookeeperClient.Valid()
      ensures ElectionStep(r)
      ensures watchingController == old(watchingController)
    {
      r := Elect();
    }
  }
}
