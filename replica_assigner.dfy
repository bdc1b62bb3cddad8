/**
 * Placement of a topic's partitions on brokers. The two random choices of the
 * source (the shuffle of the broker list and the rotation distances) are
 * inputs here, so the placement is a function of its arguments.
 */
module ReplicaAssigner {
  import opened Wrappers
  import opened Decimal
  import opened Lists
  import opened Cluster

  /** `validateBrokerList`'s IllegalArgumentException. */
  datatype AssignError = NotEnoughBrokers(brokers: int, replicationFactor: int)

  /** `perm` is a bijection of [0, n): the arrangement `Collections.shuffle` picks. */
  predicate IsPermutation(perm: seq<nat>, n: nat) {
    && |perm| == n
    && (forall i :: 0 <= i < n ==> perm[i] < n)
    && (forall i, j :: 0 <= i < j < n ==> perm[i] != perm[j])
    && (forall k :: 0 <= k < n ==> k in perm)
  }

  /** Every offset is a value `random.nextInt(n)` can return. */
  predicate IsOffsetStream(offsets: seq<nat>, n: nat) {
    forall j :: 0 <= j < |offsets| ==> offsets[j] < n
  }

  /**
   * What a call of the assigner is given: the random choices, enough rotation
   * offsets (never more than one per partition is drawn), and inputs outside
   * the two cases the source does not guard, a remainder by an empty list's
   * size and an `ArrayList` of negative capacity.
   */
  predicate AssignmentInputs(nBrokers: nat, nPartitions: int, replicationFactor: int,
                             perm: seq<nat>, offsets: seq<nat>)
  {
    && IsPermutation(perm, nBrokers)
    && IsOffsetStream(offsets, nBrokers)
    && (nBrokers > 0 ==> nPartitions <= |offsets|)
    && (nPartitions > 0 && replicationFactor <= nBrokers ==> nBrokers > 0 && replicationFactor >= 0)
  }

  lemma ModSmall(x: int, n: int)
    requires 0 < n && 0 <= x < 2 * n
    ensures x % n == if x < n then x else x - n
  {
    if x >= n {
      assert x == n + (x - n);
    }
  }

  /** The list `Collections.shuffle` leaves: position i holds the element from position perm[i]. */
  function Shuffle(list: seq<Int32>, perm: seq<nat>): (r: seq<Int32>)
    requires IsPermutation(perm, |list|)
    ensures |r| == |list|
  {
    seq(|list|, i requires 0 <= i < |list| => list[perm[i]])
  }

  /** Dropping the position that holds n-1 from a bijection of [0, n) leaves a bijection of [0, n-1). */
  lemma DropTopPermutation(perm: seq<nat>, n: nat, j: nat)
    requires IsPermutation(perm, n) && j < n && perm[j] == n - 1
    ensures IsPermutation(perm[..j] + perm[j + 1..], n - 1)
  {
    var perm' := perm[..j] + perm[j + 1..];
    assert forall i :: 0 <= i < n - 1 ==> perm'[i] == if i < j then perm[i] else perm[i + 1];
    forall k | 0 <= k < n - 1
      ensures k in perm'
    {
      assert k in perm;
      var m :| 0 <= m < n && perm[m] == k;
      if m < j {
        assert perm'[m] == k;
      } else {
        assert perm'[m - 1] == k;
      }
    }
  }

  lemma ShuffleDropTop(list: seq<Int32>, perm: seq<nat>, j: nat)
    requires IsPermutation(perm, |list|) && j < |list| && perm[j] == |list| - 1
    ensures IsPermutation(perm[..j] + perm[j + 1..], |list| - 1)
    ensures var s := Shuffle(list, perm);
            Shuffle(list[..|list| - 1], perm[..j] + perm[j + 1..]) == s[..j] + s[j + 1..]
  {
    DropTopPermutation(perm, |list|, j);
    var perm' := perm[..j] + perm[j + 1..];
    assert forall i :: 0 <= i < |list| - 1 ==> perm'[i] == if i < j then perm[i] else perm[i + 1];
  }

  /** The shuffle neither loses nor invents occurrences: it is a permutation of its input. */
  lemma {:induction false} ShufflePermutes(list: seq<Int32>, perm: seq<nat>)
    requires IsPermutation(perm, |list|)
    ensures multiset(Shuffle(list, perm)) == multiset(list)
    decreases |list|
  {
    var n := |list|;
    if n > 0 {
      var j := TopPosition(perm, n);
      ShuffleDropTop(list, perm, j);
      ShufflePermutes(list[..n - 1], perm[..j] + perm[j + 1..]);
      MultisetReassemble(Shuffle(list, perm), list, j);
    }
  }

  /** Where a permutation of [0, n) sends the last list position from. */
  lemma TopPosition(perm: seq<nat>, n: nat) returns (j: nat)
    requires IsPermutation(perm, n) && n > 0
    ensures j < n && perm[j] == n - 1
  {
    assert n - 1 in perm;
    j :| 0 <= j < n && perm[j] == n - 1;
  }

  /** Putting back the element taken out at `j` restores the multiset. */
  lemma MultisetReassemble(s: seq<Int32>, list: seq<Int32>, j: nat)
    requires |s| == |list| && j < |s|
    requires s[j] == list[|list| - 1]
    requires multiset(s[..j] + s[j + 1..]) == multiset(list[..|list| - 1])
    ensures multiset(s) == multiset(list)
  {
    MultisetWithout(s, j);
    MultisetWithout(list, |list| - 1);
    assert list[..|list| - 1] + list[|list|..] == list[..|list| - 1];
  }

  lemma MultisetWithout(s: seq<Int32>, j: nat)
    requires j < |s|
    ensures multiset(s) == multiset(s[..j] + s[j + 1..]) + multiset{s[j]}
  {
    assert s == s[..j] + [s[j]] + s[j + 1..];
  }

  lemma ShuffleDistinct(list: seq<Int32>, perm: seq<nat>)
    requires IsPermutation(perm, |list|) && Distinct(list)
    ensures Distinct(Shuffle(list, perm))
  {
    var s := Shuffle(list, perm);
    forall a, b | 0 <= a < b < |list|
      ensures s[a] != s[b]
    {
      assert perm[a] != perm[b];
    }
  }

  /**
   * `Collections.rotate(list, distance)` for 0 <= distance < |list|: the last
   * `distance` elements move to the front.
   */
  function Rotate(list: seq<Int32>, distance: nat): (r: seq<Int32>)
    requires distance < |list|
    ensures |r| == |list|
  {
    list[|list| - distance..] + list[..|list| - distance]
  }

  /** The library's own description of `rotate`: the element at i moves to (i + distance) mod size. */
  lemma RotateMoves(list: seq<Int32>, distance: nat, i: int)
    requires distance < |list| && 0 <= i < |list|
    ensures Rotate(list, distance)[(i + distance) % |list|] == list[i]
  {
    ModSmall(i + distance, |list|);
  }

  lemma RotatePermutes(list: seq<Int32>, distance: nat)
    requires distance < |list|
    ensures multiset(Rotate(list, distance)) == multiset(list)
    ensures Distinct(list) ==> Distinct(Rotate(list, distance))
  {
    var n := |list|;
    var r := Rotate(list, distance);
    assert list == list[..n - distance] + list[n - distance..];
    if Distinct(list) {
      forall a, b | 0 <= a < b < n
        ensures r[a] != r[b]
      {
        var ia := if a < distance then n - distance + a else a - distance;
        var ib := if b < distance then n - distance + b else b - distance;
        assert r[a] == list[ia] && r[b] == list[ib];
        assert ia != ib;
      }
    }
  }

  /**
   * `computeReplicaSet`'s result: `length` ids read circularly from `list`,
   * starting at `start`.
   */
  function Window(list: seq<Int32>, start: nat, length: nat): (r: seq<Int32>)
    requires |list| > 0
    ensures |r| == length
    ensures forall x :: x in r ==> x in list
  {
    seq(length, i requires 0 <= i < length => list[(start + i) % |list|])
  }

  /** A window no longer than a duplicate-free list repeats no id. */
  lemma WindowDistinct(list: seq<Int32>, start: nat, length: nat)
    requires |list| > 0 && start < |list| && length <= |list|
    requires Distinct(list)
    ensures Distinct(Window(list, start, length))
  {
    var n := |list|;
    var w := Window(list, start, length);
    forall a, b | 0 <= a < b < length
      ensures w[a] != w[b]
    {
      ModSmall(start + a, n);
      ModSmall(start + b, n);
    }
  }

  /** The working list after the first k rotations. */
  function Rotations(list: seq<Int32>, offsets: seq<nat>, k: nat): (r: seq<Int32>)
    requires IsOffsetStream(offsets, |list|) && k <= |offsets|
    ensures |r| == |list|
  {
    if k == 0 then list else Rotate(Rotations(list, offsets, k - 1), offsets[k - 1])
  }

  lemma {:induction false} RotationsPermute(list: seq<Int32>, offsets: seq<nat>, k: nat)
    requires IsOffsetStream(offsets, |list|) && k <= |offsets|
    ensures multiset(Rotations(list, offsets, k)) == multiset(list)
    ensures Distinct(list) ==> Distinct(Rotations(list, offsets, k))
  {
    if k > 0 {
      RotationsPermute(list, offsets, k - 1);
      RotatePermutes(Rotations(list, offsets, k - 1), offsets[k - 1]);
    }
  }

  /** How many of the partitions 0 .. q-1 trigger a rotation (those with p mod n == 0). */
  function RotationsBefore(q: nat, n: nat): (r: nat)
    requires n > 0
    ensures r <= q
  {
    if q == 0 then 0 else RotationsBefore(q - 1, n) + (if (q - 1) % n == 0 then 1 else 0)
  }

  /**
   * The loop of `assignReplicasToBrokers` from partition p on, with `list` the
   * working list and k offsets drawn so far: partition p takes the window at
   * p mod n, and the list is rotated, by the next offset, after each partition
   * with p mod n == 0.
   */
  function Placement(list: seq<Int32>, p: nat, nPartitions: Int32, replicationFactor: int,
                     offsets: seq<nat>, k: nat): (r: seq<PartitionReplicas>)
    requires p < nPartitions ==> |list| > 0 && replicationFactor >= 0
    requires IsOffsetStream(offsets, |list|)
    requires p < nPartitions ==> k + (nPartitions - p) <= |offsets|
    decreases nPartitions - p
  {
    if p >= nPartitions then []
    else
      var here := PartitionReplicas(p, Window(list, p % |list|, replicationFactor));
      if p % |list| == 0 then
        [here] + Placement(Rotate(list, offsets[k]), p + 1, nPartitions, replicationFactor, offsets, k + 1)
      else
        [here] + Placement(list, p + 1, nPartitions, replicationFactor, offsets, k)
  }

  /** The placement a call that passed validation returns, in partition-id order. */
  function Assignment(brokerIds: seq<Int32>, nPartitions: Int32, replicationFactor: Int32,
                      perm: seq<nat>, offsets: seq<nat>): (r: seq<PartitionReplicas>)
    requires AssignmentInputs(|brokerIds|, nPartitions, replicationFactor, perm, offsets)
    requires replicationFactor <= |brokerIds|
  {
    Placement(Shuffle(brokerIds, perm), 0, nPartitions, replicationFactor, offsets, 0)
  }

  /** The working list in force when partition q's replicas are chosen. */
  function WorkingList(brokerIds: seq<Int32>, perm: seq<nat>, offsets: seq<nat>, q: nat): (r: seq<Int32>)
    requires |brokerIds| > 0
    requires IsPermutation(perm, |brokerIds|) && IsOffsetStream(offsets, |brokerIds|)
    requires q <= |offsets|
  {
    Rotations(Shuffle(brokerIds, perm), offsets, RotationsBefore(q, |brokerIds|))
  }

  /** Unfolds one partition of `Placement`. */
  lemma PlacementStep(list: seq<Int32>, p: nat, nPartitions: Int32, replicationFactor: nat,
                      offsets: seq<nat>, k: nat)
    requires p < nPartitions && |list| > 0
    requires IsOffsetStream(offsets, |list|)
    requires k + (nPartitions - p) <= |offsets|
    ensures Placement(list, p, nPartitions, replicationFactor, offsets, k)
            == [PartitionReplicas(p, Window(list, p % |list|, replicationFactor))]
               + if p % |list| == 0
                 then Placement(Rotate(list, offsets[k]), p + 1, nPartitions, replicationFactor, offsets, k + 1)
                 else Placement(list, p + 1, nPartitions, replicationFactor, offsets, k)
  {
  }

  /** One step of the partition loop keeps "placed so far + still to place == whole placement". */
  lemma PlacementAdvance(done: seq<PartitionReplicas>, list: seq<Int32>, p: nat, nPartitions: Int32,
                         replicationFactor: nat, offsets: seq<nat>, k: nat, total: seq<PartitionReplicas>)
    requires p < nPartitions && |list| > 0
    requires IsOffsetStream(offsets, |list|)
    requires k + (nPartitions - p) <= |offsets|
    requires done + Placement(list, p, nPartitions, replicationFactor, offsets, k) == total
    ensures p % |list| == 0 ==>
              (done + [PartitionReplicas(p, Window(list, p % |list|, replicationFactor))])
              + Placement(Rotate(list, offsets[k]), p + 1, nPartitions, replicationFactor, offsets, k + 1) == total
    ensures p % |list| != 0 ==>
              (done + [PartitionReplicas(p, Window(list, p % |list|, replicationFactor))])
              + Placement(list, p + 1, nPartitions, replicationFactor, offsets, k) == total
  {
    PlacementStep(list, p, nPartitions, replicationFactor, offsets, k);
    var here := PartitionReplicas(p, Window(list, p % |list|, replicationFactor));
    var rest := if p % |list| == 0
                then Placement(Rotate(list, offsets[k]), p + 1, nPartitions, replicationFactor, offsets, k + 1)
                else Placement(list, p + 1, nPartitions, replicationFactor, offsets, k);
    SeqAssoc(done, [here], rest);
  }

  lemma SeqAssoc<T>(a: seq<T>, b: seq<T>, c: seq<T>)
    ensures (a + b) + c == a + (b + c)
  {
  }

  /** The replicas partition q receives: the window at q mod n of the working list then in force. */
  function WindowAt(s0: seq<Int32>, offsets: seq<nat>, q: nat, replicationFactor: nat): (r: seq<Int32>)
    requires |s0| > 0 && IsOffsetStream(offsets, |s0|)
    requires q <= |offsets|
  {
    Window(Rotations(s0, offsets, RotationsBefore(q, |s0|)), q % |s0|, replicationFactor)
  }

  /** Entry i of `r` is partition p + i, placed by `WindowAt`. */
  ghost predicate PlacedByWindows(s0: seq<Int32>, offsets: seq<nat>, p: nat, replicationFactor: nat,
                                  r: seq<PartitionReplicas>)
    requires |s0| > 0 && IsOffsetStream(offsets, |s0|)
    requires p + |r| <= |offsets|
  {
    forall i :: 0 <= i < |r| ==>
      r[i].partitionId as int == p + i && r[i].brokerIds == WindowAt(s0, offsets, p + i, replicationFactor)
  }

  lemma PlacedByWindowsCons(s0: seq<Int32>, offsets: seq<nat>, p: nat, replicationFactor: nat,
                            rest: seq<PartitionReplicas>)
    requires |s0| > 0 && IsOffsetStream(offsets, |s0|)
    requires p + 1 + |rest| <= |offsets| && p < 0x8000_0000
    requires PlacedByWindows(s0, offsets, p + 1, replicationFactor, rest)
    ensures PlacedByWindows(s0, offsets, p, replicationFactor,
                            [PartitionReplicas(p, WindowAt(s0, offsets, p, replicationFactor))] + rest)
  {
    var r := [PartitionReplicas(p, WindowAt(s0, offsets, p, replicationFactor))] + rest;
    forall i | 0 <= i < |r|
      ensures r[i].partitionId as int == p + i
      ensures r[i].brokerIds == WindowAt(s0, offsets, p + i, replicationFactor)
    {
      if i > 0 {
        var j := i - 1;
        assert r[i] == rest[j];
        assert rest[j].brokerIds == WindowAt(s0, offsets, p + 1 + j, replicationFactor);
        assert p + 1 + j == p + i;
      }
    }
  }

  /** After partition p the working list is rotated exactly when p mod n == 0. */
  lemma NextWorkingList(s0: seq<Int32>, offsets: seq<nat>, p: nat)
    requires |s0| > 0 && IsOffsetStream(offsets, |s0|)
    requires p < |offsets|
    ensures var k := RotationsBefore(p, |s0|);
            RotationsBefore(p + 1, |s0|) == if p % |s0| == 0 then k + 1 else k
    ensures var k := RotationsBefore(p, |s0|);
            Rotations(s0, offsets, RotationsBefore(p + 1, |s0|))
            == if p % |s0| == 0 then Rotate(Rotations(s0, offsets, k), offsets[k]) else Rotations(s0, offsets, k)
  {
    var k := RotationsBefore(p, |s0|);
    assert RotationsBefore(p + 1, |s0|) == k + (if p % |s0| == 0 then 1 else 0);
    if p % |s0| == 0 {
      assert Rotations(s0, offsets, k + 1) == Rotate(Rotations(s0, offsets, k), offsets[k]);
    }
  }

  lemma {:induction false} PlacementByWindows(s0: seq<Int32>, p: nat, nPartitions: Int32, replicationFactor: nat,
                                              offsets: seq<nat>)
    requires |s0| > 0 && IsOffsetStream(offsets, |s0|)
    requires nPartitions <= |offsets|
    requires p <= nPartitions
    ensures var k := RotationsBefore(p, |s0|);
            var r := Placement(Rotations(s0, offsets, k), p, nPartitions, replicationFactor, offsets, k);
            && |r| == nPartitions - p
            && PlacedByWindows(s0, offsets, p, replicationFactor, r)
    decreases nPartitions - p
  {
    if p < nPartitions {
      var n := |s0|;
      var k := RotationsBefore(p, n);
      var list := Rotations(s0, offsets, k);
      var k' := RotationsBefore(p + 1, n);
      var list' := Rotations(s0, offsets, k');
      NextWorkingList(s0, offsets, p);
      PlacementStep(list, p, nPartitions, replicationFactor, offsets, k);
      PlacementByWindows(s0, p + 1, nPartitions, replicationFactor, offsets);
      var rest := Placement(list', p + 1, nPartitions, replicationFactor, offsets, k');
      PlacedByWindowsCons(s0, offsets, p, replicationFactor, rest);
    }
  }

  /** The result has one entry per partition, and the ids are 0 .. nPartitions-1 in order. */
  lemma AssignmentShape(brokerIds: seq<Int32>, nPartitions: Int32, replicationFactor: Int32,
                        perm: seq<nat>, offsets: seq<nat>)
    requires AssignmentInputs(|brokerIds|, nPartitions, replicationFactor, perm, offsets)
    requires replicationFactor <= |brokerIds|
    ensures var r := Assignment(brokerIds, nPartitions, replicationFactor, perm, offsets);
            && |r| == (if nPartitions > 0 then nPartitions as int else 0)
            && forall q :: 0 <= q < |r| ==> r[q].partitionId == q
  {
    if nPartitions > 0 {
      PlacementByWindows(Shuffle(brokerIds, perm), 0, nPartitions, replicationFactor as nat, offsets);
    }
  }

  /**
   * The replicas of partition q are the circular window at q mod n of the
   * working list, which has been rotated once for each earlier partition with
   * p mod n == 0 and is otherwise unchanged.
   */
  lemma AssignmentUsesWorkingList(brokerIds: seq<Int32>, nPartitions: Int32, replicationFactor: Int32,
                                  perm: seq<nat>, offsets: seq<nat>, q: nat)
    requires AssignmentInputs(|brokerIds|, nPartitions, replicationFactor, perm, offsets)
    requires replicationFactor <= |brokerIds|
    requires q < nPartitions
    ensures |brokerIds| > 0 && replicationFactor >= 0
    ensures var r := Assignment(brokerIds, nPartitions, replicationFactor, perm, offsets);
            && q < |r|
            && r[q] == PartitionReplicas(q, Window(WorkingList(brokerIds, perm, offsets, q),
                                                   q % |brokerIds|, replicationFactor))
  {
    PlacementByWindows(Shuffle(brokerIds, perm), 0, nPartitions, replicationFactor as nat, offsets);
  }

  /** Shuffling and rotating keep the working list a permutation of the input. */
  lemma WorkingListPermutes(brokerIds: seq<Int32>, perm: seq<nat>, offsets: seq<nat>, q: nat)
    requires |brokerIds| > 0
    requires IsPermutation(perm, |brokerIds|) && IsOffsetStream(offsets, |brokerIds|)
    requires q <= |offsets|
    ensures multiset(WorkingList(brokerIds, perm, offsets, q)) == multiset(brokerIds)
    ensures Distinct(brokerIds) ==> Distinct(WorkingList(brokerIds, perm, offsets, q))
  {
    ShufflePermutes(brokerIds, perm);
    if Distinct(brokerIds) {
      ShuffleDistinct(brokerIds, perm);
    }
    RotationsPermute(Shuffle(brokerIds, perm), offsets, RotationsBefore(q, |brokerIds|));
  }

  /**
   * Every replica list has `replicationFactor` ids, all taken from the input;
   * when the input ids are distinct no list repeats an id.
   */
  lemma AssignmentReplicasValid(brokerIds: seq<Int32>, nPartitions: Int32, replicationFactor: Int32,
                                perm: seq<nat>, offsets: seq<nat>)
    requires AssignmentInputs(|brokerIds|, nPartitions, replicationFactor, perm, offsets)
    requires replicationFactor <= |brokerIds|
    ensures var r := Assignment(brokerIds, nPartitions, replicationFactor, perm, offsets);
            forall q :: 0 <= q < |r| ==>
              && |r[q].brokerIds| == replicationFactor as int
              && (forall x :: x in r[q].brokerIds ==> x in brokerIds)
              && (Distinct(brokerIds) ==> Distinct(r[q].brokerIds))
  {
    var r := Assignment(brokerIds, nPartitions, replicationFactor, perm, offsets);
    AssignmentShape(brokerIds, nPartitions, replicationFactor, perm, offsets);
    forall q | 0 <= q < |r|
      ensures |r[q].brokerIds| == replicationFactor as int
      ensures forall x :: x in r[q].brokerIds ==> x in brokerIds
      ensures Distinct(brokerIds) ==> Distinct(r[q].brokerIds)
    {
      AssignmentUsesWorkingList(brokerIds, nPartitions, replicationFactor, perm, offsets, q);
      WorkingListPermutes(brokerIds, perm, offsets, q);
      var wl := WorkingList(brokerIds, perm, offsets, q);
      assert forall x :: x in wl ==> x in multiset(brokerIds);
      if Distinct(brokerIds) {
        WindowDistinct(wl, q % |brokerIds|, replicationFactor as nat);
      }
    }
  }

  /** `computeReplicaSet`: appends `replicationFactor` ids, starting at partitionId mod n. */
  method ComputeReplicaSet(partitionId: nat, replicationFactor: nat, brokerIds: seq<Int32>)
    returns (replicaBrokers: seq<Int32>)
    requires |brokerIds| > 0
    ensures replicaBrokers == Window(brokerIds, partitionId % |brokerIds|, replicationFactor)
  {
    replicaBrokers := [];
    var startingPoint := partitionId % |brokerIds|;
    var i := 0;
    while i < replicationFactor
      invariant 0 <= i <= replicationFactor
      invariant replicaBrokers == Window(brokerIds, startingPoint, i)
    {
      var index := (startingPoint + i) % |brokerIds|;
      replicaBrokers := replicaBrokers + [brokerIds[index]];
      i := i + 1;
    }
  }

  /**
   * `assignReplicasToBrokers`: fails when there are fewer brokers than the
   * replication factor, and otherwise returns the placement, ordered by
   * partition id.
   */
  method AssignReplicasToBrokers(brokerIds: seq<Int32>, nPartitions: Int32, replicationFactor: Int32,
                                 perm: seq<nat>, offsets: seq<nat>)
    returns (r: Result<seq<PartitionReplicas>, AssignError>)
    requires AssignmentInputs(|brokerIds|, nPartitions, replicationFactor, perm, offsets)
    ensures |brokerIds| < replicationFactor as int ==>
              r == Failure(NotEnoughBrokers(|brokerIds|, replicationFactor as int))
    ensures replicationFactor as int <= |brokerIds| ==>
              r == Success(Assignment(brokerIds, nPartitions, replicationFactor, perm, offsets))
  {
    // validateBrokerList
    if |brokerIds| < replicationFactor as int {
      return Failure(NotEnoughBrokers(|brokerIds|, replicationFactor as int));
    }
    var shuffledBrokers := Shuffle(brokerIds, perm);
    var partitionAssignments := PlacePartitions(shuffledBrokers, nPartitions, replicationFactor as int, offsets);
    return Success(partitionAssignments);
  }

  /**
   * The partition loop of `assignReplicasToBrokers` over the shuffled list:
   * a window per partition, and a rotation (drawing the next offset) each
   * time the partition id is a multiple of the list size.
   */
  method PlacePartitions(shuffled: seq<Int32>, nPartitions: Int32, replicationFactor: int, offsets: seq<nat>)
    returns (partitionAssignments: seq<PartitionReplicas>)
    requires 0 < nPartitions ==> |shuffled| > 0 && replicationFactor >= 0
    requires IsOffsetStream(offsets, |shuffled|)
    requires 0 < nPartitions ==> nPartitions as int <= |offsets|
    ensures partitionAssignments == Placement(shuffled, 0, nPartitions, replicationFactor, offsets, 0)
  {
    partitionAssignments := [];
    if nPartitions <= 0 {
      return;
    }
    var n := |shuffled|;
    var shuffledBrokers := shuffled;
    // how many offsets random.nextInt has handed out
    var draws := 0;
    var partitionId := 0;
    while partitionId < nPartitions as int
      invariant 0 <= partitionId <= nPartitions as int
      invariant |shuffledBrokers| == n && IsOffsetStream(offsets, n)
      invariant draws + (nPartitions as int - partitionId) <= |offsets|
      invariant partitionAssignments + Placement(shuffledBrokers, partitionId, nPartitions, replicationFactor, offsets, draws)
                == Placement(shuffled, 0, nPartitions, replicationFactor, offsets, 0)
    {
      PlacementAdvance(partitionAssignments, shuffledBrokers, partitionId, nPartitions, replicationFactor, offsets, draws,
                       Placement(shuffled, 0, nPartitions, replicationFactor, offsets, 0));
      var replicas := ComputeReplicaSet(partitionId, replicationFactor as nat, shuffledBrokers);
      partitionAssignments := partitionAssignments + [PartitionReplicas(partitionId, replicas)];
      // maybeRotateBrokerList
      if partitionId % n == 0 {
        shuffledBrokers := Rotate(shuffledBrokers, offsets[draws]);
        draws := draws + 1;
      }
      partitionId := partitionId + 1;
    }
    assert partitionAssignments + [] == partitionAssignments;
  }
}
