/**
 * The coordination store as the control plane sees it through
 * `ZookeeperClient`: path construction, the create and read operations the
 * brokers, the controller and the admin client issue, and the listings that
 * parse child names back into ids and maps.
 *
 * The store holds three tables and the directory nodes above them: the
 * ephemeral controller record at `/controller` (the controller's id as
 * decimal text), the ephemeral broker records under `/brokers/ids` (keyed by
 * child name) and the persistent topic records under `/brokers/topics`.
 * Record values are kept as structured values; the controller record keeps
 * its decimal text, since the source parses it back.
 */
module ZookeeperStore {
  import opened Wrappers
  import opened Decimal
  import opened Lists
  import opened Cluster

  const BrokerIdsPath: string := "/brokers/ids"
  const BrokerTopicsPath: string := "/brokers/topics"
  const ControllerPath: string := "/controller"

  /** The store's exceptions the control plane meets: `ZkNoNodeException`, `ZkNodeExistsException`. */
  datatype StoreError = NoNode(path: string) | NodeExists(path: string)

  /** Outcome of `tryCreatingControllerPath`: the record was created, or `ControllerExistsException(id)`. */
  datatype Election = Elected | ControllerExists(controllerId: Int32)

  /** What `readData` returns at a path, by the table the path belongs to. */
  datatype NodeData =
    | ControllerData(payload: string)
    | BrokerData(broker: Broker)
    | TopicData(assignment: seq<PartitionReplicas>)

  /** One path segment: non-empty and free of the separator. */
  predicate IsNodeName(s: string) {
    |s| > 0 && '/' !in s
  }

  /**
   * `getBrokerPath(id)`: the broker's record path, its id in decimal under
   * the broker directory. The record sits directly under that directory,
   * named by the id, and creating its parent creates the directory.
   */
  function BrokerPath(id: int): (path: string)
    ensures ChildOf(path, BrokerIdsPath) == Some(IntToString(id))
    ensures '/' in path && ParentToCreate(path) == Some(BrokerIdsPath)
  {
    NumeralIsNodeName(id);
    ChildOfJoin(BrokerIdsPath, IntToString(id));
    ParentDirOfJoin(BrokerIdsPath, IntToString(id));
    BrokerIdsPath + "/" + IntToString(id)
  }

  /**
   * `getTopicPath(topicName)`. A topic named by one segment sits directly
   * under the topic directory, and creating its parent creates the directory.
   */
  function TopicPath(topicName: string): (path: string)
    ensures '/' in path
    ensures IsNodeName(topicName) ==> ChildOf(path, BrokerTopicsPath) == Some(topicName)
    ensures IsNodeName(topicName) ==> ParentToCreate(path) == Some(BrokerTopicsPath)
  {
    var path := BrokerTopicsPath + "/" + topicName;
    assert path[|BrokerTopicsPath|] == '/';
    assert IsNodeName(topicName) ==>
             ChildOf(path, BrokerTopicsPath) == Some(topicName) && ParentToCreate(path) == Some(BrokerTopicsPath) by {
      if IsNodeName(topicName) {
        ChildOfJoin(BrokerTopicsPath, topicName);
        ParentDirOfJoin(BrokerTopicsPath, topicName);
      }
    }
    path
  }

  /** `String.lastIndexOf(char)`: the last position holding `c`, or -1. */
  function LastIndexOf(s: string, c: char): (r: int)
    ensures -1 <= r < |s|
    ensures r >= 0 ==> s[r] == c
    ensures forall k :: r < k < |s| ==> s[k] != c
    decreases |s|
  {
    if |s| == 0 then -1
    else if s[|s| - 1] == c then |s| - 1
    else LastIndexOf(s[..|s| - 1], c)
  }

  /**
   * `path.substring(0, path.lastIndexOf('/'))` in `createParentPath`; without
   * a '/' Java's `substring(0, -1)` throws, and every path the client builds
   * has one.
   */
  function ParentDir(path: string): (d: string)
    requires '/' in path
    ensures |d| < |path| && d == path[..|d|] && path[|d|] == '/'
    ensures forall k :: |d| < k < |path| ==> path[k] != '/'
  {
    path[..LastIndexOf(path, '/')]
  }

  /**
   * The directory `createParentPath` creates: the parent directory, or
   * nothing when the parent is the root.
   */
  function ParentToCreate(path: string): (r: Option<string>)
    requires '/' in path
    ensures r.None? <==> path[0] == '/' && '/' !in path[1..]
    ensures r.Some? ==> r.value == ParentDir(path) && |r.value| > 0
  {
    var d := ParentDir(path);
    assert path[0] == '/' && '/' !in path[1..] <==> d == "" by {
      if d != "" {
        assert path[..|d|] == d;
        if path[0] == '/' {
          assert path[1..][|d| - 1] == path[|d|];
        }
      }
    }
    if d == "" then None else Some(d)
  }

  /**
   * `createPersistent(dir, true)`: the directory and each ancestor up to the
   * root (the root itself, the empty prefix, is never created).
   */
  function DirAndAncestors(dir: string): (ds: set<string>)
    ensures dir != "" ==> dir in ds
    ensures "" !in ds
    decreases |dir|
  {
    if dir == "" then {}
    else {dir} + if '/' in dir then DirAndAncestors(ParentDir(dir)) else {}
  }

  /**
   * The child name of `path` when `path` is a record directly under `dir`; the
   * store resolves record paths to table entries this way.
   */
  function ChildOf(path: string, dir: string): (r: Option<string>)
    ensures r.Some? ==> path == dir + "/" + r.value && IsNodeName(r.value)
  {
    if |path| > |dir| + 1 && path[..|dir|] == dir && path[|dir|] == '/' && IsNodeName(path[|dir| + 1..]) then
      assert path == path[..|dir|] + "/" + path[|dir| + 1..];
      Some(path[|dir| + 1..])
    else None
  }

  /** Joining a directory and a single segment, then resolving, gives the segment back. */
  lemma ChildOfJoin(dir: string, name: string)
    requires IsNodeName(name)
    ensures ChildOf(dir + "/" + name, dir) == Some(name)
  {
    var path := dir + "/" + name;
    assert path[..|dir|] == dir;
    assert path[|dir| + 1..] == name;
  }

  /** The parent of `dir + "/" + name` is `dir`, whatever `dir` is. */
  lemma ParentDirOfJoin(dir: string, name: string)
    requires '/' !in name
    ensures '/' in dir + "/" + name
    ensures ParentDir(dir + "/" + name) == dir
  {
    var path := dir + "/" + name;
    assert path[|dir|] == '/';
    var d := ParentDir(path);
    assert |dir| <= |d|;
    assert forall k :: |dir| < k < |path| ==> path[k] == name[k - |dir| - 1];
    assert |d| <= |dir|;
    assert d == path[..|dir|] == dir;
  }

  /** A decimal numeral holds no path separator. */
  lemma NumeralIsNodeName(id: int)
    ensures IsNodeName(IntToString(id))
  {
    var s := IntToString(id);
    if id < 0 {
      assert s == "-" + NatToString(-id);
      assert forall k :: 1 <= k < |s| ==> IsDigit(s[k]) by {
        forall k | 1 <= k < |s| ensures IsDigit(s[k]) {
          assert s[k] == NatToString(-id)[k - 1];
        }
      }
    }
    assert forall k :: 0 <= k < |s| ==> s[k] == '-' || IsDigit(s[k]);
  }

  /** `/controller` hangs off the root, so `createParentPath` creates nothing for it. */
  lemma ControllerPathHasNoParentToCreate()
    ensures ParentToCreate(ControllerPath) == None
  {
    assert ControllerPath[1..] == "controller";
  }

  /** Creating `dir + "/" + name` with its parents creates it and what creating `dir` creates. */
  lemma DirAndAncestorsOfJoin(dir: string, name: string)
    requires '/' !in name
    ensures DirAndAncestors(dir + "/" + name) == {dir + "/" + name} + DirAndAncestors(dir)
  {
    ParentDirOfJoin(dir, name);
  }

  /** The three kinds of record path never coincide. */
  lemma RecordPathsDiffer(id: int, topicName: string)
    ensures BrokerPath(id) != ControllerPath && TopicPath(topicName) != ControllerPath
    ensures ChildOf(TopicPath(topicName), BrokerIdsPath) == None
    ensures ChildOf(BrokerPath(id), BrokerTopicsPath) == None
  {
    var b, t := BrokerPath(id), TopicPath(topicName);
    assert b == BrokerIdsPath + "/" + IntToString(id) && t == BrokerTopicsPath + "/" + topicName;
    assert b[1] == 'b' && t[1] == 'b';
    assert t[9] == 't' && b[9] == 'i';
    assert t[..|BrokerIdsPath|] != BrokerIdsPath by {
      assert t[..|BrokerIdsPath|][9] == 't';
    }
    if |b| > |BrokerTopicsPath| + 1 {
      assert b[..|BrokerTopicsPath|][9] == 'i';
    }
  }

  /** One session of `ZookeeperClient` against the store. */
  class ZookeeperClient {
    /** The ephemeral record at `ControllerPath`. */
    var controller: Option<string>
    /**
     * The ephemeral records under `BrokerIdsPath`, by broker id: the record
     * of broker `id` is the child named `IntToString(id)`, the only names
     * `registerBroker` creates.
     */
    var brokers: map<Int32, Broker>
    /** The persistent records under `BrokerTopicsPath`, by topic name. */
    var topics: TopicAssignments
    /** The persistent directory nodes created so far. */
    var dirs: set<string>

    /**
     * What the client's own writes keep true: a broker record sits under its
     * broker's id, the controller record parses, topic names are single
     * segments, and a table with records has its directory.
     */
    ghost predicate Valid()
      reads this
    {
      && (forall id :: id in brokers ==> brokers[id].id == id)
      && (controller.Some? ==> ParseInt(controller.value).Some?)
      && (forall name :: name in topics ==> IsNodeName(name))
      && (brokers != map[] ==> BrokerIdsPath in dirs)
      && (topics != map[] ==> BrokerTopicsPath in dirs)
    }

    /** A client connected to a store that holds only its root. */
    constructor ()
      ensures Valid()
      ensures controller == None && brokers == map[] && topics == map[] && dirs == {}
    {
      controller := None;
      brokers := map[];
      topics := map[];
      dirs := {};
    }

    /** The child names under `BrokerIdsPath`. */
    ghost function BrokerChildren(): (children: set<string>)
      reads this
    {
      set id | id in brokers :: IntToString(id)
    }

    /**
     * `zkClient.readData(path)`; `None` is its `ZkNoNodeException`. A read
     * invents nothing: the controller record is found only at its own path,
     * and a broker or topic record only directly under its directory and
     * only as the store holds it.
     */
    function ReadData(path: string): (r: Option<NodeData>)
      reads this
      ensures r.Some? && r.value.ControllerData? <==> path == ControllerPath && controller.Some?
      ensures r.Some? && r.value.ControllerData? ==> controller == Some(r.value.payload)
      ensures r.Some? && r.value.BrokerData? ==>
                ChildOf(path, BrokerIdsPath).Some? && r.value.broker in brokers.Values
      ensures r.Some? && r.value.TopicData? ==>
                ChildOf(path, BrokerTopicsPath).Some? && r.value.assignment in topics.Values
    {
      if path == ControllerPath then
        if controller.Some? then Some(ControllerData(controller.value)) else None
      else
        match ChildOf(path, BrokerIdsPath)
        case Some(child) =>
          (match ParseInt(child)
           case Some(id) =>
             if id in brokers && IntToString(id) == child then Some(BrokerData(brokers[id])) else None
           case None => None)
        case None =>
          match ChildOf(path, BrokerTopicsPath)
          case Some(name) => if name in topics then Some(TopicData(topics[name])) else None
          case None => None
    }

    /**
     * `zkClient.getChildren(dir)` for the two table directories: no-node
     * exactly when the directory was never created; otherwise the decimal
     * texts of the registered ids (see `BrokerChildrenParse`), or the topic
     * names.
     */
    function GetChildren(dir: string): (r: Result<set<string>, StoreError>)
      reads this
      requires dir == BrokerIdsPath || dir == BrokerTopicsPath
      ensures r.Failure? <==> dir !in dirs
      ensures r.Failure? ==> r.error == NoNode(dir)
      ensures r.Success? && dir == BrokerIdsPath ==> r.value == BrokerChildren()
      ensures r.Success? && dir == BrokerTopicsPath ==> r.value == topics.Keys
    {
      if dir !in dirs then Failure(NoNode(dir))
      else if dir == BrokerIdsPath then Success(set id | id in brokers :: IntToString(id))
      else Success(topics.Keys)
    }

    /**
     * The children of the broker directory are exactly the names that parse
     * to a registered id and are that id's decimal text.
     */
    lemma BrokerChildrenParse(child: string)
      ensures child in BrokerChildren() <==>
                ParseInt(child).Some? && ParseInt(child).value in brokers
                && IntToString(ParseInt(child).value) == child
    {
      if child in BrokerChildren() {
        ParseChild(child);
      }
    }

    /** The controller's id as `Integer.parseInt` reads the controller record, if there is one. */
    function ControllerId(): (id: Option<Int32>)
      reads this
    {
      if controller.Some? then ParseInt(controller.value) else None
    }

    /** Reading a broker's path gives the broker registered under its id, if any. */
    lemma ReadBrokerPath(id: Int32)
      ensures ReadData(BrokerPath(id)) == if id in brokers then Some(BrokerData(brokers[id])) else None
    {
      RecordPathsDiffer(id, "");
      ParseIntOfIntToString(id);
    }

    /** Reading a topic's path gives its stored assignment, if any. */
    lemma ReadTopicPath(topicName: string)
      requires IsNodeName(topicName)
      ensures ReadData(TopicPath(topicName))
              == if topicName in topics then Some(TopicData(topics[topicName])) else None
    {
      RecordPathsDiffer(0, topicName);
    }

    /** Each child of the broker directory is one registered id's decimal form, which parses back to it. */
    lemma ParseChild(child: string)
      requires child in BrokerChildren()
      ensures ParseInt(child).Some? && ParseInt(child).value in brokers
      ensures IntToString(ParseInt(child).value) == child
    {
      var id :| id in brokers && IntToString(id) == child;
      ParseIntOfIntToString(id);
    }

    /** In a valid store two registered brokers with the same id are the same record. */
    lemma BrokerIdsUnique(a: Broker, b: Broker)
      requires Valid()
      requires a in brokers.Values && b in brokers.Values && a.id == b.id
      ensures a == b
    {
      var ka :| ka in brokers && brokers[ka] == a;
      var kb :| kb in brokers && brokers[kb] == b;
    }

    /**
     * `createParentPath(path)`: creates the parent directory with its
     * ancestors unless the parent is the root; existing ones are kept.
     */
    method CreateParentPath(path: string)
      requires '/' in path
      modifies this`dirs
      ensures dirs == old(dirs) + match ParentToCreate(path)
                                  case None => {}
                                  case Some(d) => DirAndAncestors(d)
    {
      var parentDir := ParentToCreate(path);
      if parentDir.Some? {
        dirs := dirs + DirAndAncestors(parentDir.value);
      }
    }

    /**
     * `registerBroker`: the broker's record is created under its own id's
     * path, with the broker directory if it does not exist yet; a second
     * registration of the same id fails with node-exists.
     */
    method RegisterBroker(broker: Broker) returns (r: Outcome<StoreError>)
      requires Valid()
      modifies this
      ensures Valid()
      ensures controller == old(controller) && topics == old(topics)
      ensures broker.id in old(brokers) ==>
                r == Fail(NodeExists(BrokerPath(broker.id))) && brokers == old(brokers) && dirs == old(dirs)
      ensures broker.id !in old(brokers) ==>
                && r == Pass
                && brokers == old(brokers)[broker.id := broker]
                && dirs == if BrokerIdsPath in old(dirs) then old(dirs) else old(dirs) + DirAndAncestors(BrokerIdsPath)
    {
      var brokerKey := BrokerPath(broker.id);
      // createEphemeralPath: a node that exists is refused outright
      if broker.id in brokers {
        return Fail(NodeExists(brokerKey));
      }
      // the first create fails with no-node when the directory is missing
      if BrokerIdsPath !in dirs {
        CreateParentPath(brokerKey);
      }
      brokers := brokers[broker.id := broker];
      r := Pass;
    }

    /**
     * `tryCreatingControllerPath`: an absent controller record is created
     * holding `String.valueOf(brokerId)`; a present one is left as it is and
     * its stored id is reported.
     */
    method TryCreatingControllerPath(brokerId: Int32) returns (r: Election)
      requires Valid()
      modifies this`controller
      ensures Valid()
      ensures old(controller).None? ==> r == Elected && controller == Some(IntToString(brokerId))
      ensures old(controller).Some? ==>
                controller == old(controller) && r == ControllerExists(old(ControllerId()).value)
    {
      if controller.Some? {
        // ZkNodeExistsException: read the record and parse it
        var existingControllerId := ReadData(ControllerPath).value.payload;
        return ControllerExists(ParseInt(existingControllerId).value);
      }
      // the parent of /controller is the root, so the create never meets no-node
      ControllerPathHasNoParentToCreate();
      ParseIntOfIntToString(brokerId);
      controller := Some(IntToString(brokerId));
      r := Elected;
    }

    /**
     * `setPartitionReplicasForTopic` through `createPersistentPath`: the
     * assignment is stored under the topic's path, with the topic directory if
     * it is missing; an existing topic fails with node-exists and keeps its
     * assignment.
     */
    method SetPartitionReplicasForTopic(topicName: string, partitionReplicas: seq<PartitionReplicas>)
      returns (r: Outcome<StoreError>)
      requires Valid() && IsNodeName(topicName)
      modifies this
      ensures Valid()
      ensures controller == old(controller) && brokers == old(brokers)
      ensures topicName in old(topics) ==>
                r == Fail(NodeExists(TopicPath(topicName))) && topics == old(topics) && dirs == old(dirs)
      ensures topicName !in old(topics) ==>
                && r == Pass
                && topics == old(topics)[topicName := partitionReplicas]
                && dirs == if BrokerTopicsPath in old(dirs) then old(dirs) else old(dirs) + DirAndAncestors(BrokerTopicsPath)
    {
      var topicsPath := TopicPath(topicName);
      if topicName in topics {
        return Fail(NodeExists(topicsPath));
      }
      // the first create fails with no-node when the directory is missing
      if BrokerTopicsPath !in dirs {
        CreateParentPath(topicsPath);
      }
      topics := topics[topicName := partitionReplicas];
      r := Pass;
    }

    /**
     * The end of this client's session: the store drops the session's
     * ephemeral records, the controller record and the broker records, and
     * keeps the persistent topics and directories.
     */
    method ExpireSession()
      requires Valid()
      modifies this
      ensures Valid()
      ensures controller == None && brokers == map[]
      ensures topics == old(topics) && dirs == old(dirs)
    {
      controller := None;
      brokers := map[];
    }

    /**
     * `getAllBrokerIds`: the child names of the broker directory parsed as
     * ints, which are exactly the registered ids; no-node when the directory
     * was never created.
     */
    method GetAllBrokerIds() returns (r: Result<set<Int32>, StoreError>)
      requires Valid()
      ensures BrokerIdsPath !in dirs ==> r == Failure(NoNode(BrokerIdsPath))
      ensures BrokerIdsPath in dirs ==> r == Success(brokers.Keys)
    {
      var listing := GetChildren(BrokerIdsPath);
      if listing.Failure? {
        return Failure(listing.error);
      }
      var brokerIds := listing.value;
      var integerBrokerIds: set<Int32> := {};
      // the hash set's iteration order is not modelled: any unvisited child may come next
      var rest := brokerIds;
      ghost var visited: set<string> := {};
      while rest != {}
        invariant visited <= brokerIds && rest == brokerIds - visited
        invariant integerBrokerIds == IdsNamedIn(visited)
        decreases |rest|
      {
        var id :| id in rest;
        ParseChild(id);
        VisitChild(visited, id);
        integerBrokerIds := integerBrokerIds + {ParseInt(id).value};
        rest := rest - {id};
        visited := visited + {id};
      }
      AllChildrenVisited(visited);
      r := Success(integerBrokerIds);
    }

    /**
     * `getAllBrokers`: for each child of the broker directory, the record at
     * the path built from its parsed id, so every registered broker, and one
     * per id (see `BrokerIdsUnique`); no-node when the directory was never
     * created.
     */
    method GetAllBrokers() returns (r: Result<set<Broker>, StoreError>)
      requires Valid()
      ensures BrokerIdsPath !in dirs ==> r == Failure(NoNode(BrokerIdsPath))
      ensures BrokerIdsPath in dirs ==> r == Success(brokers.Values)
    {
      var listing := GetChildren(BrokerIdsPath);
      if listing.Failure? {
        return Failure(listing.error);
      }
      var brokerIds := listing.value;
      var result: set<Broker> := {};
      var rest := brokerIds;
      ghost var visited: set<string> := {};
      while rest != {}
        invariant visited <= brokerIds && rest == brokerIds - visited
        invariant result == Image(brokers, IdsNamedIn(visited))
        decreases |rest|
      {
        var idString :| idString in rest;
        ParseChild(idString);
        var id := ParseInt(idString).value;
        ReadBrokerPath(id);
        var data := ReadData(BrokerPath(id));
        VisitChild(visited, idString);
        ImageAdd(brokers, IdsNamedIn(visited), id);
        result := result + {data.value.broker};
        rest := rest - {idString};
        visited := visited + {idString};
      }
      AllChildrenVisited(visited);
      ImageAll(brokers);
      r := Success(result);
    }

    /** The registered ids whose child names are among `children`. */
    ghost function IdsNamedIn(children: set<string>): (ids: set<Int32>)
      reads this
      ensures ids <= brokers.Keys
    {
      set id | id in brokers && IntToString(id) in children
    }

    /** Visiting one more child adds the id it names. */
    lemma VisitChild(visited: set<string>, child: string)
      requires child in BrokerChildren()
      ensures ParseInt(child).Some?
      ensures IdsNamedIn(visited + {child}) == IdsNamedIn(visited) + {ParseInt(child).value}
    {
      ParseChild(child);
      forall id | id in brokers && IntToString(id) == child ensures id == ParseInt(child).value {
        ParseIntOfIntToString(id);
      }
    }

    /** Having visited every child, every registered id has been met. */
    lemma AllChildrenVisited(visited: set<string>)
      requires visited == BrokerChildren()
      ensures IdsNamedIn(visited) == brokers.Keys
    {
    }

    /**
     * `getAllTopics`: one entry per child of the topic directory, mapped to
     * the assignment read at its path; no-node when the directory was never
     * created.
     */
    method GetAllTopics() returns (r: Result<TopicAssignments, StoreError>)
      requires Valid()
      ensures BrokerTopicsPath !in dirs ==> r == Failure(NoNode(BrokerTopicsPath))
      ensures BrokerTopicsPath in dirs ==> r == Success(topics)
    {
      var listing := GetChildren(BrokerTopicsPath);
      if listing.Failure? {
        return Failure(listing.error);
      }
      var topicNames := ToList(listing.value);
      var topicPartitionMap: TopicAssignments := map[];
      var i := 0;
      while i < |topicNames|
        invariant 0 <= i <= |topicNames|
        invariant forall name :: name in topicPartitionMap <==> name in topicNames[..i]
        invariant forall name :: name in topicPartitionMap ==> name in topics && topicPartitionMap[name] == topics[name]
      {
        var topicName := topicNames[i];
        assert topicName in topics;
        ReadTopicPath(topicName);
        var partitionAssignments := ReadData(TopicPath(topicName)).value.assignment;
        assert topicNames[..i + 1] == topicNames[..i] + [topicName];
        topicPartitionMap := topicPartitionMap[topicName := partitionAssignments];
        i := i + 1;
      }
      assert topicNames[..i] == topicNames;
      forall name | name in topics ensures name in topicPartitionMap && topicPartitionMap[name] == topics[name] {
        assert name in Elements(topicNames);
      }
      assert topicPartitionMap == topics;
      r := Success(topicPartitionMap);
    }
  }
}
