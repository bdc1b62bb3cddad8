# Control plane of a small Kafka-like broker, in Dafny

This project models the control plane of a teaching implementation of a
Kafka-style broker cluster. All of its parts work through one coordination
store (ZooKeeper), which is modelled as an in-memory object with three tables:

- the ephemeral controller record at `/controller`, holding the controller's
  id as decimal text;
- the ephemeral broker records under `/brokers/ids`, one per registered
  broker and named by the broker's id;
- the persistent topic records under `/brokers/topics`, each holding the
  topic's partition placement.

The store also tracks which persistent directory nodes exist. Listing a
directory that was never created fails with "no node", as it does in the
store.

Four pieces are modelled on top of it:

- **Replica placement** (`ReplicaAssigner`). It validates the broker count
  and shuffles the broker list once. Each partition `p` then takes a circular
  window of `replicationFactor` ids starting at `p mod n`. After every
  partition with `p mod n == 0` the list is rotated. The two random sources
  are inputs: `perm` is the arrangement the shuffle picks and `offsets` are
  the rotation distances `nextInt` returns. The placement is therefore a
  function of its arguments.
- **Controller election and caches** (`ZkController`). An election creates
  the controller record if it is absent, or otherwise adopts the id stored in
  it. The controller that wins loads the live brokers. A membership
  notification diffs the old and new broker lists by id and replaces the list.
  A topic notification merges the topic table into the cache. Notifications
  are direct calls to the handlers. A subscription is a flag on the
  controller.
- **Topic creation** (`AdminZkClient`). It lists the broker ids, places the
  partitions and writes the placement as a new topic record.
- **Store operations** (`ZookeeperClient`). These are path construction,
  parent-directory creation, the create-if-absent of the controller record,
  ephemeral and persistent creates that propagate "node exists", and the
  listings that parse child names back into ids and maps.

Java `int` is the subset type `Int32`. `String.valueOf` and
`Integer.parseInt` are written out (`Decimal`), and their round trip is
proved. A `new ArrayList<>(hashSet)` copy is `Lists.ToList`, which may produce
any order. The store and the controller are classes whose methods change
their fields; the admin client changes the store. The placement loop and the membership diff are `while` loops
proved against specification functions (`Placement`, `Missing`).
`Scenarios` replays the repository's tests on fresh objects.

Files: `wrappers.dfy` (Option, Result, Outcome), `decimal.dfy`, `lists.dfy`,
`cluster.dfy` (Broker, PartitionReplicas), `replica_assigner.dfy`,
`zookeeper_client.dfy`, `zk_controller.dfy`, `admin_zk_client.dfy`,
`scenarios.dfy`.

## Model

| member | source | states |
|---|---|---|
| ReplicaAssigner.AssignReplicasToBrokers | src/main/java/com/dist/simplekafka/ReplicaAssigner.java:29-56 | With fewer ids than the replication factor the call fails and carries the broker count and the factor. Otherwise it returns `Assignment`, the placement of the shuffled list in partition-id order. |
| ReplicaAssigner.PlacePartitions | src/main/java/com/dist/simplekafka/ReplicaAssigner.java:40-44 | The partition loop, including its in-place rotations, produces exactly `Placement` from partition 0 with no offsets drawn. With no partitions the result is empty. |
| ReplicaAssigner.ComputeReplicaSet | src/main/java/com/dist/simplekafka/ReplicaAssigner.java:58-68 | The loop appends `replicationFactor` ids read circularly from `partitionId mod n`. |
| ReplicaAssigner.Window | src/main/java/com/dist/simplekafka/ReplicaAssigner.java:59-65 | A replica list has exactly `replicationFactor` entries, all taken from the working list. |
| ReplicaAssigner.WindowDistinct | src/main/java/com/dist/simplekafka/ReplicaAssigner.java:60-64 | A window no longer than a duplicate-free list repeats no id. |
| ReplicaAssigner.ShufflePermutes | src/main/java/com/dist/simplekafka/ReplicaAssigner.java:37-38 | The shuffled list is a permutation (the same multiset) of the input. |
| ReplicaAssigner.ShuffleDistinct | src/main/java/com/dist/simplekafka/ReplicaAssigner.java:37-38 | Shuffling a duplicate-free list gives a duplicate-free list. |
| ReplicaAssigner.Shuffle | src/main/java/com/dist/simplekafka/ReplicaAssigner.java:37-38 | The arrangement `Collections.shuffle` picks keeps the list's length; `ShufflePermutes` and `ShuffleDistinct` state that it is a permutation that keeps ids distinct. |
| ReplicaAssigner.RotateMoves | src/main/java/com/dist/simplekafka/ReplicaAssigner.java:72 | `Collections.rotate` by `d` moves the element at `i` to `(i + d) mod n`. |
| ReplicaAssigner.RotatePermutes | src/main/java/com/dist/simplekafka/ReplicaAssigner.java:72 | A rotation is a permutation and keeps a list duplicate-free. |
| ReplicaAssigner.Rotate | src/main/java/com/dist/simplekafka/ReplicaAssigner.java:72 | `Collections.rotate` keeps the list's length; `RotateMoves` and `RotatePermutes` state where each element goes and that the result is a permutation. |
| ReplicaAssigner.RotationsPermute | src/main/java/com/dist/simplekafka/ReplicaAssigner.java:70-73 | Any number of rotations keeps the working list a permutation, and duplicate-free if it was. |
| ReplicaAssigner.NextWorkingList | src/main/java/com/dist/simplekafka/ReplicaAssigner.java:70-73 | After partition `p` the list is rotated by the next offset exactly when `p mod n == 0`. Otherwise it is unchanged. |
| ReplicaAssigner.PlacementByWindows | src/main/java/com/dist/simplekafka/ReplicaAssigner.java:40-44 | From partition `p` on, entry `i` is partition `p + i`. Its replicas are the window at `(p + i) mod n` of the working list then in force. |
| ReplicaAssigner.AssignmentShape | src/main/java/com/dist/simplekafka/ReplicaAssigner.java:40-48 | The result has exactly `nPartitions` entries, or none when `nPartitions <= 0`. Entry `q` is partition `q`, so the order is ascending partition id. |
| ReplicaAssigner.AssignmentUsesWorkingList | src/main/java/com/dist/simplekafka/ReplicaAssigner.java:60-64 | Partition `q`'s replicas are the window at `q mod n` of the shuffled list after the rotations triggered by partitions before `q`. |
| ReplicaAssigner.WorkingListPermutes | src/main/java/com/dist/simplekafka/ReplicaAssigner.java:37-43 | The working list in force at any partition is a permutation of the input, and duplicate-free if the input is. |
| ReplicaAssigner.AssignmentReplicasValid | src/main/java/com/dist/simplekafka/ReplicaAssigner.java:58-68 | Every replica list has `replicationFactor` ids, all from the input. When the input ids are distinct, no replica list repeats one. |
| Decimal.NatToString | src/main/java/com/dist/simplekafka/ZookeeperClient.java:160 | The decimal text of a natural number is non-empty, is all digits and has no leading zero. |
| Decimal.IntToString | src/main/java/com/dist/simplekafka/ZookeeperClient.java:160 | `String.valueOf(int)` is non-empty, starts with '-' exactly for negative numbers, and is all digits otherwise. |
| Decimal.DigitsValueOfNatToString | src/main/java/com/dist/simplekafka/ZookeeperClient.java:163-164 | Reading back the digits of a natural number's decimal text gives the number. |
| Decimal.ParseIntOfIntToString | src/main/java/com/dist/simplekafka/ZookeeperClient.java:153-165 | `Integer.parseInt(String.valueOf(i)) == i` for every `int`, so the id read back from the controller record equals the id written. |
| Decimal.IntToStringInjective | src/main/java/com/dist/simplekafka/ZookeeperClient.java:86-88 | Different ids have different decimal texts, so different brokers have different record paths. |
| Decimal.ParseInt | src/main/java/com/dist/simplekafka/ZookeeperClient.java:102 | `Integer.parseInt` on ASCII text succeeds only on an optional sign followed by at least one digit, so a lone sign, the empty string and any other character are its NumberFormatException, `None`. A negative value comes only after '-'. An unsigned digit string reads as its value below 2^31 and is `None` from 2^31 on. |
| Decimal.ParseIntSigned | src/main/java/com/dist/simplekafka/ZookeeperClient.java:102 | A '+' numeral reads as its value below 2^31 and a '-' numeral as its negation when the value is at most 2^31; any other signed numeral is `None`. |
| ZookeeperStore.LastIndexOf | src/main/java/com/dist/simplekafka/ZookeeperClient.java:91 | `lastIndexOf` returns -1 or a position holding the character, with none after it. |
| ZookeeperStore.ParentDir | src/main/java/com/dist/simplekafka/ZookeeperClient.java:90-92 | The parent is the prefix before the last '/'. |
| ZookeeperStore.ParentToCreate | src/main/java/com/dist/simplekafka/ZookeeperClient.java:90-95 | Nothing is created exactly when the path is a single segment under the root, that is, when the parent is empty. Otherwise the non-empty parent is created. |
| ZookeeperStore.DirAndAncestors | src/main/java/com/dist/simplekafka/ZookeeperClient.java:93 | `createPersistent(dir, true)` creates `dir` and never the root. |
| ZookeeperStore.DirAndAncestorsOfJoin | src/main/java/com/dist/simplekafka/ZookeeperClient.java:93 | Creating `dir/name` with parents creates that node plus `dir` and its ancestors. |
| ZookeeperStore.ChildOf | src/main/java/com/dist/simplekafka/ZookeeperClient.java:86-88 | A path resolved to a record directly under `dir` is `dir + "/" + name` for a single segment `name`. |
| ZookeeperStore.ChildOfJoin | src/main/java/com/dist/simplekafka/ZookeeperClient.java:127-129 | Joining a directory and a segment with '/' and resolving gives the segment back. |
| ZookeeperStore.ParentDirOfJoin | src/main/java/com/dist/simplekafka/ZookeeperClient.java:90-92 | The parent of `dir + "/" + name` is `dir` when `name` has no '/'. |
| ZookeeperStore.NumeralIsNodeName | src/main/java/com/dist/simplekafka/ZookeeperClient.java:86-88 | An id's decimal text is one path segment. |
| ZookeeperStore.BrokerPath | src/main/java/com/dist/simplekafka/ZookeeperClient.java:86-88 | `getBrokerPath(id)` is the record named by `id`'s decimal text directly under `/brokers/ids`, and the directory created before a broker record is `/brokers/ids`. |
| ZookeeperStore.TopicPath | src/main/java/com/dist/simplekafka/ZookeeperClient.java:127-129 | `getTopicPath(name)` always contains a separator; for a single-segment name it is the record `name` directly under `/brokers/topics`, and the directory created before it is `/brokers/topics`. |
| ZookeeperStore.ControllerPathHasNoParentToCreate | src/main/java/com/dist/simplekafka/ZookeeperClient.java:90-95 | `/controller` sits under the root, so no parent is created for it. |
| ZookeeperStore.RecordPathsDiffer | src/main/java/com/dist/simplekafka/ZookeeperClient.java:22-24 | Broker and topic record paths are never the controller path, and neither resolves in the other's directory. |
| ZookeeperStore.ZookeeperClient.constructor | src/main/java/com/dist/simplekafka/ZookeeperClient.java:29-33 | A new store has no records and no directories. |
| ZookeeperStore.ZookeeperClient.ReadBrokerPath | src/main/java/com/dist/simplekafka/ZookeeperClient.java:48-57 | Reading a broker's record path gives that broker's record if it is registered, and nothing otherwise. |
| ZookeeperStore.ZookeeperClient.ReadTopicPath | src/main/java/com/dist/simplekafka/ZookeeperClient.java:132-141 | Reading a topic's record path gives its stored assignment if it exists, and nothing otherwise. |
| ZookeeperStore.ZookeeperClient.ReadData | src/main/java/com/dist/simplekafka/ZookeeperClient.java:53 | A read invents nothing: the controller record is found exactly at `/controller` when one exists, and a broker or topic record only directly under its directory and only as a record the store holds. `ReadBrokerPath` and `ReadTopicPath` give the exact result at each record path. |
| ZookeeperStore.ZookeeperClient.GetChildren | src/main/java/com/dist/simplekafka/ZookeeperClient.java:99 | Listing a table directory fails with "no node" exactly when it was never created. Otherwise `/brokers/ids` lists the decimal texts of the registered ids and `/brokers/topics` the topic names. |
| ZookeeperStore.ZookeeperClient.BrokerChildrenParse | src/main/java/com/dist/simplekafka/ZookeeperClient.java:99-103 | A name is a child of `/brokers/ids` exactly when it parses to a registered id and is that id's decimal text. |
| ZookeeperStore.ZookeeperClient.ParseChild | src/main/java/com/dist/simplekafka/ZookeeperClient.java:98-105 | Every child name under `/brokers/ids` parses to the id of a registered broker whose decimal text it is. |
| ZookeeperStore.ZookeeperClient.BrokerIdsUnique | src/main/java/com/dist/simplekafka/ZookeeperClient.java:41-46 | Two registered brokers with the same id are the same record. |
| ZookeeperStore.ZookeeperClient.CreateParentPath | src/main/java/com/dist/simplekafka/ZookeeperClient.java:90-95 | The parent directory and its ancestors are added, unless the parent is the root. Nothing else changes. |
| ZookeeperStore.ZookeeperClient.RegisterBroker | src/main/java/com/dist/simplekafka/ZookeeperClient.java:41-84 | An id already registered fails with "node exists" at its path and changes nothing. Otherwise the broker is stored under its own id. `/brokers/ids` is created on first use. The controller and topic tables are unchanged. |
| ZookeeperStore.ZookeeperClient.TryCreatingControllerPath | src/main/java/com/dist/simplekafka/ZookeeperClient.java:153-166 | With no record it stores `String.valueOf(brokerId)` and reports the win. With a record it reports the parsed stored id and leaves the record as it was. |
| ZookeeperStore.ZookeeperClient.SetPartitionReplicasForTopic | src/main/java/com/dist/simplekafka/ZookeeperClient.java:107-124 | An existing topic fails with "node exists" and is not overwritten. A new topic is stored with the given list, and `/brokers/topics` is created on first use. Brokers and the controller record are unchanged. |
| ZookeeperStore.ZookeeperClient.ExpireSession | src/main/java/com/dist/simplekafka/ZookeeperClient.java:155-159 | When the session ends, its ephemeral records (the controller and broker records) disappear. Topic records and directories stay. |
| ZookeeperStore.ZookeeperClient.GetAllBrokerIds | src/main/java/com/dist/simplekafka/ZookeeperClient.java:98-105 | The result fails with "no node" when `/brokers/ids` was never created. Otherwise it is exactly the set of ids parsed from the child names, which is the set of registered ids. |
| ZookeeperStore.ZookeeperClient.GetAllBrokers | src/main/java/com/dist/simplekafka/ZookeeperClient.java:48-57 | The result fails with "no node" when `/brokers/ids` was never created. Otherwise it is exactly the set of records read at each child's path, one per registered broker. |
| ZookeeperStore.ZookeeperClient.GetAllTopics | src/main/java/com/dist/simplekafka/ZookeeperClient.java:132-142 | The result fails with "no node" when `/brokers/topics` was never created. Otherwise it maps each child to its stored assignment and holds no other key. |
| Lists.ToList | src/main/java/com/dist/simplekafka/ZkController.java:95 | Copying a hash set into a list gives each element exactly once. The order is left open. |
| Controller.MissingMembers | src/main/java/com/dist/simplekafka/ZkController.java:125-153 | A broker is reported exactly when it is in the first list and no broker of the second list has its id. The comparison is by id only. |
| Controller.MissingEmpty | src/main/java/com/dist/simplekafka/ZkController.java:125-153 | Nothing is reported exactly when every broker of the first list has its id in the second. |
| Controller.MissingDistinct | src/main/java/com/dist/simplekafka/ZkController.java:125-153 | A report drawn from a duplicate-free list is duplicate-free. |
| Controller.SameBrokersNoChange | src/main/java/com/dist/simplekafka/ZkController.java:171-172 | Two reads with the same brokers, in any order, report no broker added and none removed. |
| Controller.BrokersMissingFrom | src/main/java/com/dist/simplekafka/ZkController.java:125-153 | The nested loops with the `found` flag and `break` compute exactly `Missing`. |
| Controller.ZkController.constructor | src/main/java/com/dist/simplekafka/ZkController.java:12-20 | Before any election the leader is -1. The caches are empty and nothing is subscribed. |
| Controller.ZkController.GetCurrentLeaderId | src/main/java/com/dist/simplekafka/ZkController.java:194-196 | Reports the leader the last election recorded, -1 before any; what each election records is stated by `Elect`. |
| Controller.ZkController.GetAllTopics | src/main/java/com/dist/simplekafka/ZkController.java:232-235 | Reports the topic cache as the topic handler last merged it. |
| Controller.ZkController.Elect | src/main/java/com/dist/simplekafka/ZkController.java:68-89 | With no controller record, this broker writes its id, becomes leader and loads the full broker set as `liveBrokers`, then subscribes to brokers and topics. With a record, it adopts the stored id and leaves `liveBrokers` and the subscriptions untouched. Brokers, topics and the topic cache never change. |
| Controller.ZkController.Startup | src/main/java/com/dist/simplekafka/ZkController.java:30-35 | An election, then the subscription to the controller record unless the election threw. |
| Controller.ZkController.OnBecomingController | src/main/java/com/dist/simplekafka/ZkController.java:91-115 | `liveBrokers` becomes exactly the registered brokers, each once, and the broker and topic subscriptions are set. A missing broker directory fails and changes nothing. |
| Controller.ZkController.HandleBrokerMembershipChange | src/main/java/com/dist/simplekafka/ZkController.java:117-176 | The added brokers are the new brokers whose id is missing from the old cache. The removed brokers are the old brokers whose id is missing from the new read. `liveBrokers` is then replaced wholesale by the new read. A failed read changes nothing. |
| Controller.ZkController.HandleTopicChange | src/main/java/com/dist/simplekafka/ZkController.java:178-191 | Every stored topic is in the cache with its stored value. Cached topics missing from the table are kept. A failed read is caught and leaves the cache unchanged. |
| Controller.ZkController.HandleDataChange | src/main/java/com/dist/simplekafka/ZkController.java:205-216 | A change of the controller record re-runs the election, with the same outcome as `Elect`. |
| Controller.ZkController.HandleDataDeleted | src/main/java/com/dist/simplekafka/ZkController.java:218-230 | A deleted controller record re-runs the election, so the first broker to hear of it takes over. |
| Admin.CreatedAssignmentValid | src/main/java/com/dist/simplekafka/AdminZkClient.java:21-29 | A placement built from the registered ids has one entry per partition, numbered in order. Each entry names `replicationFactor` distinct registered brokers. |
| Admin.AdminZkClient.constructor | src/main/java/com/dist/simplekafka/AdminZkClient.java:8-15 | The client only holds its store, which never changes. |
| Admin.AdminZkClient.CreateTopic | src/main/java/com/dist/simplekafka/AdminZkClient.java:17-29 | The store's broker ids, listed once each, go to the assigner. A missing broker directory, too few brokers or an existing topic each fail and leave the topic table as it was. Otherwise the topic is written with the assigner's output in partition order. Brokers and the controller record never change. |
| Scenarios.SingleNodeBecomesController | src/test/java/com/dist/simplekafka/ZkControllerTest.java:13-24 | A single registered broker elects itself and reports its own id as leader. |
| Scenarios.ForMultipleNodesOnlyOneBecomesController | src/test/java/com/dist/simplekafka/ZkControllerTest.java:42-63 | Controllers 1, 2 and 3 elect in that order on one store, and all three report leader 1. |
| Scenarios.ControllerFailover | src/main/java/com/dist/simplekafka/ZkController.java:218-230 | Two controllers agree on leader 1. When the controller record goes away, the first to hear of it (2) takes over, and the other then follows it. |
| Scenarios.CreatedTopicIsListed | src/test/java/com/dist/simplekafka/AdminZkClientTest.java:15-36 | After `createTopic("topic1", 2, 3)` over brokers 0, 1 and 2, a listener that merges the topic table holds exactly "topic1". It has two partitions, each on three distinct registered brokers, whatever the random choices. This is also the check of TopicChangeListenerTest.java. |
| Scenarios.ControllerSeesCreatedTopic | src/test/java/com/dist/simplekafka/ZkControllerTest.java:66-86 | An elected controller is subscribed to topics. After the creation and the notification, its topic cache holds exactly "topic1" with two partitions. |
| Scenarios.CreateTopicWithoutBrokers | src/main/java/com/dist/simplekafka/AdminZkClient.java:21-23 | On a store where no broker ever registered, `createTopic("topic1", 1, 0)` fails with "no node" for `/brokers/ids` before the assigner runs, and no topic is written. |
| Scenarios.MembershipChangeReported | src/main/java/com/dist/simplekafka/ZkController.java:117-176 | Broker 2 joining brokers 0 and 1 is reported as the only broker added, with none removed. A second notification without a change reports nothing. |

## Left out

- JSON encoding of broker and topic records (`JsonSerDes`) is not part of this model. Records are stored as structured values. Only the controller record keeps its decimal text, because the source parses it back.
- The real ZooKeeper connection, watch registration and delivery threads are left out. Notifications are direct calls to the handlers, and subscriptions are flags. Concurrent delivery is not sequential and is not modelled.
- Repeated subscriptions are left out. Subscribing again only sets the flag again, where the library would register one more listener.
- `SessionExpireListener` re-registration after a new session is left out, because it is a connection-lifecycle callback.
- One client stands for one session. Loss of a session is `ExpireSession`, which removes the ephemeral records of every broker registered through that client.
- `subscribeBrokerChangeListener`, `subscribeTopicChangeListener` and `subscribeControllerChangeListener` are modelled only as the flags they set. Their returned child lists are not modelled.
- `java.util.Random`, `Collections.shuffle` and `nextInt` internals are left out. They are the `perm` and `offsets` inputs, with their ranges as preconditions.
- The even spread of replicas over brokers ("fairness") is not stated. Only shape, membership and distinctness are proved.
- The two cases `assignReplicasToBrokers` does not guard are preconditions of the assigner (`AssignmentInputs`): an empty broker list with partitions to place, which divides by zero at line 60, and a negative replication factor, which makes the `ArrayList` constructor throw at line 59. `CreateTopic` demands them only when `/brokers/ids` exists, because otherwise the broker listing fails before the assigner runs.
- `ComputeReplicaSet`: the index `startingPoint + i` is computed on unbounded integers. It is at most `n + replicationFactor - 2`, so the source's 32-bit sum wraps only when the broker count plus the replication factor exceeds 2^31 + 1, that is, with more than 2^30 brokers. The model does not bound the broker list, so that case is not captured.
- The assigner's intermediate `HashSet` and final sorted `LinkedHashSet` are a sequence in partition-id order. All entries have distinct partition ids, so the set removes nothing.
- Topic names are single path segments (`IsNodeName`), a precondition of the topic write. The source would also accept a name with '/' and create nested nodes. The precondition also excludes the empty topic name: for it the source builds the path "/brokers/topics/", which ZooKeeper rejects with an `IllegalArgumentException` after the assignment has been computed, so nothing is written.
- Decimal.ParseInt: reads ASCII digits only, where `Integer.parseInt` reads each character with `Character.digit(c, 10)` and so also accepts other Unicode decimal digits ("١" parses to 1). The model only parses names it wrote itself with `IntToString`, and `Valid()` ties every broker child and the controller record to such a name, so no modelled call reaches the difference.
- The store lists only its two table directories, and every broker child name is the decimal text of the broker's id. Foreign nodes written by other clients are not modelled.
- Printing and logging are left out, including the "report changes" output of the membership handler, which returns the added and removed lists instead. The error message printed by the topic handler is returned as its `Outcome`.
- `ZkController.shutdown` is empty in the source, and `handleChildChange` only prints, so neither is modelled.
- `getBrokerInfo`, `getPartitionAssignmentsFor` and `registerSelf` are left out. No modelled operation calls them.
- `src/main/java/com/dist/cmd/BrokerApp.java` is not part of this model. It handles command-line arguments, `InetAddress`, sleeps and a keep-alive loop.
- `Broker.java`, `PartitionReplicas.java` and `Config` are not part of this model. Broker and PartitionReplicas are plain records here (`Cluster`).
- `TestUtils.waitUntilTrue` polling in the tests is left out. Each test is a postcondition stated after a synchronous notification.
- `HandleTopicChange` merges the freshly read table into the cache with `putAll`, as the code does, so a topic deleted from the store stays in the cache. Replacing the cache wholesale, as the membership handler does with its broker list, would drop such topics; the model follows the code's merge.
